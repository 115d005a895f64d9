/** Slot order, the incrementally kept sorted slot indexes, and the spans of an index that a query seeks. */
module OrderedIndex {
  import opened Values
  import opened Sequences
  import opened Ranking
  import opened Rows
  import opened OrderedWindow
  import opened BoundedWindow

  // ----- Slots and columns -----

  type Columns = map<string, seq<Value>>

  function ColumnValue(columns: Columns, field: string, slot: nat): Value {
    if field in columns && slot < |columns[field]| then columns[field][slot] else Undefined
  }

  /** Every column holds its field of every slot's row. */
  ghost predicate Mirrors(columns: Columns, slots: seq<Entry>) {
    && (forall f | f in columns :: |columns[f]| == |slots|)
    && (forall f, i | f in columns && 0 <= i < |slots| :: columns[f][i] == FieldValue(slots[i].row, f))
  }

  function CompareSlotsByStorageOrder(slots: seq<Entry>, columns: Columns, left: nat, right: nat,
                                      orderBy: seq<OrderColumn>)
    : int
    requires left < |slots| && right < |slots|
  {
    if orderBy == [] then CompareText(slots[left].key, slots[right].key)
    else
      var field := orderBy[0].field;
      var comparison := CompareQueryValue(ColumnValue(columns, field, left), ColumnValue(columns, field, right));
      if comparison != 0 then
        (if orderBy[0].direction.Ascending? then comparison else -comparison)
      else CompareSlotsByStorageOrder(slots, columns, left, right, orderBy[1..])
  }

  predicate FieldsExist(columns: Columns, orderBy: seq<OrderColumn>) {
    forall i | 0 <= i < |orderBy| :: orderBy[i].field in columns
  }

  /** Comparing column vectors is comparing rows. */
  lemma {:induction false} StorageOrderIsRowOrder(slots: seq<Entry>, columns: Columns, left: nat, right: nat,
                                                  orderBy: seq<OrderColumn>)
    requires Mirrors(columns, slots) && FieldsExist(columns, orderBy) && left < |slots| && right < |slots|
    ensures CompareSlotsByStorageOrder(slots, columns, left, right, orderBy) ==
      CompareRows(slots[left], slots[right], orderBy)
    decreases |orderBy|
  {
    if orderBy != [] {
      StorageOrderIsRowOrder(slots, columns, left, right, orderBy[1..]);
    }
  }

  function StorageOrder(slots: seq<Entry>, columns: Columns, orderBy: seq<OrderColumn>): (nat, nat) -> int {
    (left: nat, right: nat) =>
      if left < |slots| && right < |slots| then CompareSlotsByStorageOrder(slots, columns, left, right, orderBy) else 0
  }

  function SlotOrder(slots: seq<Entry>, compare: (Entry, Entry) -> int): (nat, nat) -> int {
    (left: nat, right: nat) => if left < |slots| && right < |slots| then compare(slots[left], slots[right]) else 0
  }

  function RowOrder(orderBy: seq<OrderColumn>): (Entry, Entry) -> int {
    (left: Entry, right: Entry) => CompareRows(left, right, orderBy)
  }

  lemma StorageOrderAgrees(slots: seq<Entry>, columns: Columns, orderBy: seq<OrderColumn>)
    requires Mirrors(columns, slots) && FieldsExist(columns, orderBy)
    ensures forall l: nat, r: nat ::
      StorageOrder(slots, columns, orderBy)(l, r) == SlotOrder(slots, RowOrder(orderBy))(l, r)
  {
    forall l: nat, r: nat
      ensures StorageOrder(slots, columns, orderBy)(l, r) == SlotOrder(slots, RowOrder(orderBy))(l, r)
    {
      if l < |slots| && r < |slots| {
        StorageOrderIsRowOrder(slots, columns, l, r, orderBy);
      }
    }
  }

  /** The live slots exist and hold different keys. */
  ghost predicate Live(slots: seq<Entry>, live: set<nat>) {
    && (forall i | i in live :: i < |slots|)
    && (forall i, j | i in live && j in live && i != j :: slots[i].key != slots[j].key)
  }

  lemma SlotsAreTotal(slots: seq<Entry>, compare: (Entry, Entry) -> int, live: set<nat>)
    requires IsRowOrder(compare) && Live(slots, live)
    ensures TotalOn(SlotOrder(slots, compare), live)
  {
    var f := SlotOrder(slots, compare);
    forall a, b, c | a in live && b in live && c in live && f(a, b) <= 0 && f(b, c) <= 0
      ensures f(a, c) <= 0
    {
      RowOrderChains(compare, slots[a], slots[b], slots[c]);
    }
    forall a, b | a in live && b in live
      ensures f(a, b) == 0 ==> a == b
      ensures f(a, b) < 0 <==> f(b, a) > 0
    {
    }
  }

  lemma StorageIsTotal(slots: seq<Entry>, columns: Columns, orderBy: seq<OrderColumn>, live: set<nat>)
    requires Mirrors(columns, slots) && FieldsExist(columns, orderBy) && Live(slots, live)
    ensures TotalOn(StorageOrder(slots, columns, orderBy), live)
  {
    CompiledOrderIsRowOrder(orderBy);
    StorageOrderAgrees(slots, columns, orderBy);
    SlotsAreTotal(slots, RowOrder(orderBy), live);
    var f, g := StorageOrder(slots, columns, orderBy), SlotOrder(slots, RowOrder(orderBy));
    forall a, b, c | a in live && b in live && c in live && f(a, b) <= 0 && f(b, c) <= 0
      ensures f(a, c) <= 0
    {
      Chains(g, live, a, b, c);
    }
  }

  // ----- Sorted slot indexes -----

  function ColumnOrder(slots: seq<Entry>, order: OrderColumn): (nat, nat) -> int {
    SlotOrder(slots, RowOrder([order]))
  }

  /** The index of one order column lists exactly the live slots, in that order. */
  ghost predicate IndexLists(index: seq<nat>, slots: seq<Entry>, order: OrderColumn, live: set<nat>) {
    (forall x :: x in index <==> x in live) && Sorted(index, ColumnOrder(slots, order))
  }

  lemma SortedEitherWay(index: seq<nat>, slots: seq<Entry>, columns: Columns, order: OrderColumn)
    requires Mirrors(columns, slots) && order.field in columns
    ensures Sorted(index, ColumnOrder(slots, order)) <==> Sorted(index, StorageOrder(slots, columns, [order]))
  {
    StorageOrderAgrees(slots, columns, [order]);
  }

  method InsertSlotIntoIndex(index: seq<nat>, slots: seq<Entry>, columns: Columns, order: OrderColumn, slot: nat,
                             ghost live: set<nat>)
    returns (result: seq<nat>)
    requires Mirrors(columns, slots) && order.field in columns && Live(slots, live + {slot}) && slot !in live
    requires IndexLists(index, slots, order, live)
    ensures IndexLists(result, slots, order, live + {slot})
  {
    var compare := StorageOrder(slots, columns, [order]);
    StorageIsTotal(slots, columns, [order], live + {slot});
    SortedEitherWay(index, slots, columns, order);
    var insertAt := OrderedSlotIndexInsertionPoint(index, slot, compare, live + {slot});
    result := InsertAt(index, insertAt, slot);
    InsertAtMembers(index, insertAt, slot);
    InsertKeepsSorted(index, live, slot, insertAt, compare);
    SortedEitherWay(result, slots, columns, order);
  }

  method IndexOf(index: seq<nat>, slot: nat) returns (position: int)
    ensures slot in index ==> 0 <= position < |index| && index[position] == slot
    ensures slot !in index ==> position == -1
  {
    for i := 0 to |index|
      invariant slot !in index[..i]
    {
      if index[i] == slot {
        return i;
      }
      assert index[..i + 1] == index[..i] + [index[i]];
    }
    assert index[..|index|] == index;
    return -1;
  }

  method RemoveSlotFromIndex(index: seq<nat>, slot: nat, ghost slots: seq<Entry>, ghost order: OrderColumn,
                             ghost live: set<nat>)
    returns (result: seq<nat>)
    requires IndexLists(index, slots, order, live) && Live(slots, live)
    ensures IndexLists(result, slots, order, live - {slot})
  {
    var slotIndex := IndexOf(index, slot);
    if slotIndex < 0 {
      return index;
    }
    result := RemoveAt(index, slotIndex);
    RemoveAtMembers(index, slotIndex, slots, order, live);
  }

  lemma RemoveAtMembers(index: seq<nat>, i: nat, slots: seq<Entry>, order: OrderColumn, live: set<nat>)
    requires IndexLists(index, slots, order, live) && Live(slots, live) && i < |index|
    ensures forall x :: x in RemoveAt(index, i) <==> x in live && x != index[i]
  {
    var r := RemoveAt(index, i);
    forall x | x in index && x != index[i]
      ensures x in r
    {
      var j :| 0 <= j < |index| && index[j] == x;
      assert r[if j < i then j else j - 1] == x;
    }
    CompiledOrderIsRowOrder([order]);
    SlotsAreTotal(slots, RowOrder([order]), live);
    SortedHasNoDuplicates(index, live, ColumnOrder(slots, order));
  }

  /** A change that leaves the order column of every live slot alone leaves the index valid. */
  lemma IndexSurvives(index: seq<nat>, slots: seq<Entry>, slots': seq<Entry>, order: OrderColumn, live: set<nat>)
    requires IndexLists(index, slots, order, live)
    requires forall i | i in live :: i < |slots| && i < |slots'| && slots'[i].key == slots[i].key
    requires forall i | i in live :: FieldValue(slots'[i].row, order.field) == FieldValue(slots[i].row, order.field)
    ensures IndexLists(index, slots', order, live)
  {
    var f, g := ColumnOrder(slots, order), ColumnOrder(slots', order);
    forall a, b | 0 <= a < b < |index|
      ensures g(index[a], index[b]) == f(index[a], index[b])
    {
      assert index[a] in live && index[b] in live;
      SameColumnSameOrder(slots[index[a]], slots[index[b]], slots'[index[a]], slots'[index[b]], order);
    }
  }

  lemma SameColumnSameOrder(a: Entry, b: Entry, a': Entry, b': Entry, order: OrderColumn)
    requires a.key == a'.key && b.key == b'.key
    requires FieldValue(a.row, order.field) == FieldValue(a'.row, order.field)
    requires FieldValue(b.row, order.field) == FieldValue(b'.row, order.field)
    ensures CompareRows(a, b, [order]) == CompareRows(a', b', [order])
  {
  }

  /** A freshly sorted index of all slots. */
  method BuildIndex(slots: seq<Entry>, columns: Columns, order: OrderColumn) returns (index: seq<nat>)
    requires Mirrors(columns, slots) && order.field in columns && Live(slots, AllSlots(slots))
    ensures IndexLists(index, slots, order, AllSlots(slots))
  {
    var compare := StorageOrder(slots, columns, [order]);
    StorageIsTotal(slots, columns, [order], AllSlots(slots));
    var unsorted := SlotNumbers(|slots|);
    index := SortBy(unsorted, compare);
    SortBySorts(unsorted, AllSlots(slots), compare);
    SortedEitherWay(index, slots, columns, order);
  }

  ghost function AllSlots(slots: seq<Entry>): set<nat> {
    Elements(SlotNumbers(|slots|))
  }

  function SlotNumbers(n: nat): (numbers: seq<nat>)
    ensures |numbers| == n && NoDuplicates(numbers) && forall x: nat :: x in numbers <==> x < n
  {
    var numbers: seq<nat> := seq(n, (i: nat) requires i < n => i);
    assert forall i | 0 <= i < n :: numbers[i] == i;
    assert forall x: nat :: x in numbers <==> x < n by {
      forall x: nat
        ensures x in numbers <==> x < n
      {
        if x < n {
          assert numbers[x] == x;
        }
      }
    }
    numbers
  }

  // ----- Spans -----

  datatype Span = Span(startIndex: nat, endIndex: nat)

  /** The index lists the column's values in its direction. */
  ghost predicate ColumnOrdered(index: seq<nat>, column: seq<Value>, direction: Direction) {
    && (forall i | 0 <= i < |index| :: index[i] < |column|)
    && forall i, j | 0 <= i < j < |index| ::
         var comparison := CompareQueryValue(column[index[i]], column[index[j]]);
         if direction.Ascending? then comparison <= 0 else comparison >= 0
  }

  lemma IndexOrdersColumn(index: seq<nat>, slots: seq<Entry>, columns: Columns, order: OrderColumn, live: set<nat>)
    requires Mirrors(columns, slots) && order.field in columns && Live(slots, live)
    requires IndexLists(index, slots, order, live)
    ensures ColumnOrdered(index, columns[order.field], order.direction)
  {
    forall i | 0 <= i < |index|
      ensures index[i] < |slots|
    {
      assert index[i] in live;
    }
    forall i, j | 0 <= i < j < |index|
      ensures
        var comparison := CompareQueryValue(columns[order.field][index[i]], columns[order.field][index[j]]);
        if order.direction.Ascending? then comparison <= 0 else comparison >= 0
    {
      assert ColumnOrder(slots, order)(index[i], index[j]) < 0;
    }
  }

  /** The first position from which `predicate` holds of the comparison with `value`. */
  method OrderedSlotBoundIndex(index: seq<nat>, column: seq<Value>, value: Value, predicate_: int -> bool)
    returns (low: nat)
    requires forall i | 0 <= i < |index| :: index[i] < |column|
    requires forall i, j | 0 <= i < j < |index| && predicate_(CompareQueryValue(column[index[i]], value)) ::
      predicate_(CompareQueryValue(column[index[j]], value))
    ensures low <= |index|
    ensures forall i | 0 <= i < |index| :: i < low <==> !predicate_(CompareQueryValue(column[index[i]], value))
  {
    low := 0;
    var high := |index|;
    while low < high
      invariant 0 <= low <= high <= |index|
      invariant forall i | 0 <= i < low :: !predicate_(CompareQueryValue(column[index[i]], value))
      invariant forall i | high <= i < |index| :: predicate_(CompareQueryValue(column[index[i]], value))
    {
      var middle := (low + high) / 2;
      if predicate_(CompareQueryValue(column[index[middle]], value)) {
        high := middle;
      } else {
        low := middle + 1;
      }
    }
  }

  predicate InSpan(span: Span, i: nat) {
    span.startIndex <= i < span.endIndex
  }

  /** The span holds exactly the positions whose column value lies within the bounds. */
  ghost predicate Spans(span: Span, index: seq<nat>, column: seq<Value>, bounds: RangeBounds) {
    && span.startIndex <= span.endIndex <= |index|
    && (forall i | 0 <= i < |index| :: index[i] < |column|)
    && forall i | 0 <= i < |index| ::
         InSpan(span, i) <==> EqualityValueSatisfiesRangeBounds(column[index[i]], bounds)
  }

  method OrderedSlotIndexBounds(index: seq<nat>, column: seq<Value>, direction: Direction, bounds: RangeBounds)
    returns (span: Span)
    requires ColumnOrdered(index, column, direction)
    ensures Spans(span, index, column, bounds)
  {
    var startIndex, endIndex := 0, |index|;
    if direction.Ascending? {
      if bounds.lower.Some? {
        startIndex := LowerBoundIndexAscending(index, column, bounds.lower.value);
      }
      if bounds.upper.Some? {
        endIndex := UpperBoundIndexAscending(index, column, bounds.upper.value);
      }
    } else {
      if bounds.upper.Some? {
        startIndex := UpperBoundIndexDescending(index, column, bounds.upper.value);
      }
      if bounds.lower.Some? {
        endIndex := LowerBoundIndexDescending(index, column, bounds.lower.value);
      }
    }
    span := Span(startIndex, if startIndex <= endIndex then endIndex else startIndex);
  }

  method LowerBoundIndexAscending(index: seq<nat>, column: seq<Value>, lower: RangeBound) returns (start: nat)
    requires ColumnOrdered(index, column, Ascending)
    ensures start <= |index|
    ensures forall i | 0 <= i < |index| :: start <= i <==> AboveLower(Some(lower), column[index[i]])
  {
    ComparisonsFollowColumn(index, column, Ascending, lower.value);
    start := OrderedSlotBoundIndex(index, column, lower.value,
      if lower.exclusive then (comparison: int) => comparison > 0 else (comparison: int) => comparison >= 0);
  }

  method UpperBoundIndexAscending(index: seq<nat>, column: seq<Value>, upper: RangeBound) returns (end: nat)
    requires ColumnOrdered(index, column, Ascending)
    ensures end <= |index|
    ensures forall i | 0 <= i < |index| :: i < end <==> BelowUpper(Some(upper), column[index[i]])
  {
    ComparisonsFollowColumn(index, column, Ascending, upper.value);
    end := OrderedSlotBoundIndex(index, column, upper.value,
      if upper.exclusive then (comparison: int) => comparison >= 0 else (comparison: int) => comparison > 0);
  }

  method UpperBoundIndexDescending(index: seq<nat>, column: seq<Value>, upper: RangeBound) returns (start: nat)
    requires ColumnOrdered(index, column, Descending)
    ensures start <= |index|
    ensures forall i | 0 <= i < |index| :: start <= i <==> BelowUpper(Some(upper), column[index[i]])
  {
    ComparisonsFollowColumn(index, column, Descending, upper.value);
    start := OrderedSlotBoundIndex(index, column, upper.value,
      if upper.exclusive then (comparison: int) => comparison < 0 else (comparison: int) => comparison <= 0);
  }

  method LowerBoundIndexDescending(index: seq<nat>, column: seq<Value>, lower: RangeBound) returns (end: nat)
    requires ColumnOrdered(index, column, Descending)
    ensures end <= |index|
    ensures forall i | 0 <= i < |index| :: i < end <==> AboveLower(Some(lower), column[index[i]])
  {
    ComparisonsFollowColumn(index, column, Descending, lower.value);
    end := OrderedSlotBoundIndex(index, column, lower.value,
      if lower.exclusive then (comparison: int) => comparison <= 0 else (comparison: int) => comparison < 0);
  }

  /** Compared with any one value, the column moves one way along the index. */
  lemma ComparisonsFollowColumn(index: seq<nat>, column: seq<Value>, direction: Direction, value: Value)
    requires ColumnOrdered(index, column, direction)
    ensures forall i, j | 0 <= i < j < |index| ::
      var a, b := CompareQueryValue(column[index[i]], value), CompareQueryValue(column[index[j]], value);
      if direction.Ascending? then (a > 0 ==> b > 0) && (a >= 0 ==> b >= 0)
        else (a < 0 ==> b < 0) && (a <= 0 ==> b <= 0)
  {
    forall i, j | 0 <= i < j < |index|
      ensures
        var a, b := CompareQueryValue(column[index[i]], value), CompareQueryValue(column[index[j]], value);
        if direction.Ascending? then (a > 0 ==> b > 0) && (a >= 0 ==> b >= 0)
          else (a < 0 ==> b < 0) && (a <= 0 ==> b <= 0)
    {
      ValuesMoveTogether(column[index[i]], column[index[j]], value, CompareQueryValue,
                         {column[index[i]], column[index[j]], value});
    }
  }

  lemma ValuesMoveTogether(u: Value, w: Value, x: Value, compare: (Value, Value) -> int, all: set<Value>)
    requires compare == CompareQueryValue && u in all && w in all && x in all
    ensures compare(u, w) <= 0 ==>
      (compare(u, x) > 0 ==> compare(w, x) > 0) && (compare(u, x) >= 0 ==> compare(w, x) >= 0)
    ensures compare(u, w) >= 0 ==>
      (compare(u, x) < 0 ==> compare(w, x) < 0) && (compare(u, x) <= 0 ==> compare(w, x) <= 0)
  {
    ValuesAreTotal(all);
    assert Chain(x, u, w) && Chain(u, w, x) && Chain(w, x, u) && Chain(w, u, x) && Chain(u, x, w) && Chain(x, w, u);
  }

  /** Spans in index order, none reaching into another. */
  ghost predicate InIndexOrder(spans: seq<Span>, n: nat) {
    && (forall a | 0 <= a < |spans| :: spans[a].startIndex <= spans[a].endIndex <= n)
    && forall a, b | 0 <= a < b < |spans| :: spans[a].endIndex <= spans[b].startIndex
  }

  ghost predicate Covered(spans: seq<Span>, i: nat) {
    exists s :: s in spans && InSpan(s, i)
  }

  ghost predicate Disjoint(spans: seq<Span>) {
    forall a, b, i | 0 <= a < b < |spans| && InSpan(spans[a], i) :: !InSpan(spans[b], i)
  }

  function CompareStart(left: Span, right: Span): int {
    left.startIndex - right.startIndex
  }

  function NonEmptySpans(spans: seq<Span>): seq<Span> {
    if spans == [] then []
    else
      var front, last := NonEmptySpans(spans[..|spans| - 1]), spans[|spans| - 1];
      if last.startIndex < last.endIndex then front + [last] else front
  }

  lemma {:induction false} NonEmptySpansKeepCover(spans: seq<Span>)
    requires Disjoint(spans)
    ensures forall s :: s in NonEmptySpans(spans) <==> s in spans && s.startIndex < s.endIndex
    ensures Disjoint(NonEmptySpans(spans)) && NoDuplicates(NonEmptySpans(spans))
  {
    if spans != [] {
      var front, last := spans[..|spans| - 1], spans[|spans| - 1];
      NonEmptySpansKeepCover(front);
      forall s | s in NonEmptySpans(front)
        ensures forall i | InSpan(s, i) :: !InSpan(last, i)
        ensures last.startIndex < last.endIndex ==> s != last
      {
        var a :| 0 <= a < |front| && front[a] == s;
        assert spans[a] == s;
        assert last.startIndex < last.endIndex ==> InSpan(last, last.startIndex);
      }
    }
  }

  /** Empty spans dropped, the others by their start. */
  method OrderedWindowSpansInIndexOrder(spans: seq<Span>, ghost n: nat) returns (ordered: seq<Span>)
    requires Disjoint(spans) && forall s | s in spans :: s.startIndex <= s.endIndex <= n
    ensures InIndexOrder(ordered, n) && forall i :: Covered(ordered, i) <==> Covered(spans, i)
  {
    var nonEmpty := NonEmptySpans(spans);
    NonEmptySpansKeepCover(spans);
    StartsTellApart(nonEmpty);
    SortBySorts(nonEmpty, Elements(nonEmpty), CompareStart);
    ordered := SortBy(nonEmpty, CompareStart);
    forall a, b | 0 <= a < b < |ordered|
      ensures ordered[a].endIndex <= ordered[b].startIndex
    {
      assert CompareStart(ordered[a], ordered[b]) < 0 && ordered[a] in nonEmpty && ordered[b] in nonEmpty;
      NoOverlap(nonEmpty, ordered[a], ordered[b]);
    }
    forall a | 0 <= a < |ordered|
      ensures ordered[a].startIndex <= ordered[a].endIndex <= n
    {
      assert ordered[a] in ordered;
    }
    forall i
      ensures Covered(ordered, i) <==> Covered(spans, i)
    {
      assert forall s | InSpan(s, i) :: s in ordered <==> s in spans;
    }
  }

  lemma NoOverlap(spans: seq<Span>, s: Span, t: Span)
    requires Disjoint(spans) && s in spans && t in spans && s != t && t.startIndex < t.endIndex
    ensures !InSpan(s, t.startIndex)
  {
    var a :| 0 <= a < |spans| && spans[a] == s;
    var b :| 0 <= b < |spans| && spans[b] == t;
    assert InSpan(t, t.startIndex);
  }

  lemma StartsTellApart(spans: seq<Span>)
    requires Disjoint(spans) && forall s | s in spans :: s.startIndex < s.endIndex
    ensures TotalOn(CompareStart, Elements(spans))
  {
    forall s, t | s in spans && t in spans && CompareStart(s, t) == 0
      ensures s == t
    {
      if s != t {
        NoOverlap(spans, s, t);
      }
    }
  }

  function ExactBounds(value: Value): RangeBounds {
    RangeBounds(Some(RangeBound(false, value)), Some(RangeBound(false, value)))
  }

  lemma ExactBoundsHoldOneValue(value: Value)
    ensures forall v :: EqualityValueSatisfiesRangeBounds(v, ExactBounds(value)) <==> v == value
  {
    forall v
      ensures EqualityValueSatisfiesRangeBounds(v, ExactBounds(value)) <==> v == value
    {
      CompareQueryValueLaws(v, value);
    }
  }

  ghost predicate Sought(value: Value, bounds: RangeBounds, equalityValues: Option<seq<Value>>) {
    EqualityValueSatisfiesRangeBounds(value, bounds) && (equalityValues.Some? ==> value in equalityValues.value)
  }

  /** The spans of an index a query seeks: in index order, disjoint, and covering exactly the positions
      whose value satisfies the bounds and, if there are equality values, is one of them. */
  method OrderedSlotIndexSpans(index: seq<nat>, column: seq<Value>, direction: Direction, bounds: RangeBounds,
                               equalityValues: Option<seq<Value>>)
    returns (spans: seq<Span>)
    requires ColumnOrdered(index, column, direction)
    ensures InIndexOrder(spans, |index|)
    ensures forall i | 0 <= i < |index| :: Covered(spans, i) <==> Sought(column[index[i]], bounds, equalityValues)
  {
    if equalityValues.None? {
      var span := OrderedSlotIndexBounds(index, column, direction, bounds);
      assert forall s :: s in [span] <==> s == span;
      return [span];
    }
    ValuesAreTotal(Elements(equalityValues.value));
    var distinct := DistinctOrderedValues(equalityValues.value, CompareQueryValue);
    var seekValues := SatisfyingValues(distinct, bounds);
    var unordered: seq<Span> := [];
    for k := 0 to |seekValues|
      invariant |unordered| == k
      invariant forall a | 0 <= a < k :: Spans(unordered[a], index, column, ExactBounds(seekValues[a]))
    {
      var span := OrderedSlotIndexBounds(index, column, direction, ExactBounds(seekValues[k]));
      unordered := unordered + [span];
    }
    SeekSpansAreDisjoint(unordered, seekValues, index, column);
    SeekSpansCover(unordered, seekValues, index, column);
    spans := OrderedWindowSpansInIndexOrder(unordered, |index|);
  }

  /** The values that satisfy the bounds, in the same order. */
  method SatisfyingValues(values: seq<Value>, bounds: RangeBounds) returns (satisfying: seq<Value>)
    requires Sorted(values, CompareQueryValue)
    ensures NoDuplicates(satisfying)
    ensures forall v :: v in satisfying <==> v in values && EqualityValueSatisfiesRangeBounds(v, bounds)
  {
    SortedValuesDiffer(values);
    satisfying := [];
    for i := 0 to |values|
      invariant NoDuplicates(satisfying)
      invariant forall v :: v in satisfying <==> v in values[..i] && EqualityValueSatisfiesRangeBounds(v, bounds)
    {
      assert values[..i + 1] == values[..i] + [values[i]];
      if EqualityValueSatisfiesRangeBounds(values[i], bounds) {
        satisfying := satisfying + [values[i]];
      }
    }
    assert values[..|values|] == values;
  }

  lemma SortedValuesDiffer(values: seq<Value>)
    requires Sorted(values, CompareQueryValue)
    ensures NoDuplicates(values)
  {
    ValuesAreTotal(Elements(values));
    SortedHasNoDuplicates(values, Elements(values), CompareQueryValue);
  }

  lemma SeekSpansAreDisjoint(spans: seq<Span>, seekValues: seq<Value>, index: seq<nat>, column: seq<Value>)
    requires NoDuplicates(seekValues) && |spans| == |seekValues|
    requires forall a | 0 <= a < |spans| :: Spans(spans[a], index, column, ExactBounds(seekValues[a]))
    ensures Disjoint(spans)
  {
    forall a, b, i | 0 <= a < b < |spans| && InSpan(spans[a], i)
      ensures !InSpan(spans[b], i)
    {
      ExactBoundsHoldOneValue(seekValues[a]);
      ExactBoundsHoldOneValue(seekValues[b]);
    }
  }

  lemma SeekSpansCover(spans: seq<Span>, seekValues: seq<Value>, index: seq<nat>, column: seq<Value>)
    requires |spans| == |seekValues| && forall i | 0 <= i < |index| :: index[i] < |column|
    requires forall a | 0 <= a < |spans| :: Spans(spans[a], index, column, ExactBounds(seekValues[a]))
    ensures forall i | 0 <= i < |index| :: Covered(spans, i) <==> column[index[i]] in seekValues
    ensures forall s | s in spans :: s.startIndex <= s.endIndex <= |index|
  {
    forall i | 0 <= i < |index|
      ensures Covered(spans, i) <==> column[index[i]] in seekValues
    {
      if Covered(spans, i) {
        var s :| s in spans && InSpan(s, i);
        var a :| 0 <= a < |spans| && spans[a] == s;
        ExactBoundsHoldOneValue(seekValues[a]);
      }
      if column[index[i]] in seekValues {
        var a :| 0 <= a < |seekValues| && seekValues[a] == column[index[i]];
        ExactBoundsHoldOneValue(seekValues[a]);
        assert spans[a] in spans && InSpan(spans[a], i);
      }
    }
  }

  // ----- The slots of some spans -----

  function SlotsFromOrderedSpans(index: seq<nat>, spans: seq<Span>): seq<nat>
    requires forall a | 0 <= a < |spans| :: spans[a].startIndex <= spans[a].endIndex <= |index|
  {
    if spans == [] then []
    else
      var last := spans[|spans| - 1];
      SlotsFromOrderedSpans(index, spans[..|spans| - 1]) + index[last.startIndex..last.endIndex]
  }

  lemma {:induction false} SpanSlotsMembers(index: seq<nat>, spans: seq<Span>)
    requires InIndexOrder(spans, |index|)
    ensures forall x :: x in SlotsFromOrderedSpans(index, spans) <==>
      exists i :: 0 <= i < |index| && index[i] == x && Covered(spans, i)
  {
    if spans != [] {
      var front, last := spans[..|spans| - 1], spans[|spans| - 1];
      SpanSlotsMembers(index, front);
      assert spans == front + [last];
      forall i
        ensures Covered(spans, i) <==> Covered(front, i) || InSpan(last, i)
      {
        assert last in spans;
        if Covered(front, i) {
          var s :| s in front && InSpan(s, i);
          assert s in spans;
        }
      }
      forall x
        ensures x in index[last.startIndex..last.endIndex] <==> exists i ::
          0 <= i < |index| && index[i] == x && InSpan(last, i)
      {
        if i :| 0 <= i < |index| && index[i] == x && InSpan(last, i) {
          assert index[last.startIndex..last.endIndex][i - last.startIndex] == x;
        }
      }
    }
  }

  /** Slots read span by span come in index order. */
  lemma {:induction false} SpanSlotsKeepOrder(index: seq<nat>, spans: seq<Span>, compare: (nat, nat) -> int)
    requires InIndexOrder(spans, |index|) && Sorted(index, compare)
    ensures Sorted(SlotsFromOrderedSpans(index, spans), compare)
  {
    if spans != [] {
      var front, last := spans[..|spans| - 1], spans[|spans| - 1];
      SpanSlotsKeepOrder(index, front, compare);
      assert forall a | 0 <= a < |front| :: spans[a].endIndex <= last.startIndex;
      EarlierSpansFirst(index, front, last, compare);
      ConcatKeepsOrder(SlotsFromOrderedSpans(index, front), index[last.startIndex..last.endIndex], compare);
    }
  }

  lemma EarlierSpansFirst(index: seq<nat>, front: seq<Span>, last: Span, compare: (nat, nat) -> int)
    requires InIndexOrder(front, |index|) && Sorted(index, compare) && last.startIndex <= last.endIndex <= |index|
    requires forall a | 0 <= a < |front| :: front[a].endIndex <= last.startIndex
    ensures forall x, y | x in SlotsFromOrderedSpans(index, front) && y in index[last.startIndex..last.endIndex] ::
      compare(x, y) < 0
  {
    SpanSlotsMembers(index, front);
    forall x, y | x in SlotsFromOrderedSpans(index, front) && y in index[last.startIndex..last.endIndex]
      ensures compare(x, y) < 0
    {
      var i :| 0 <= i < |index| && index[i] == x && Covered(front, i);
      var j :| last.startIndex <= j < last.endIndex && index[j] == y;
      assert i < last.startIndex;
    }
  }

  lemma ConcatKeepsOrder(before: seq<nat>, now: seq<nat>, compare: (nat, nat) -> int)
    requires Sorted(before, compare) && Sorted(now, compare)
    requires forall x, y | x in before && y in now :: compare(x, y) < 0
    ensures Sorted(before + now, compare)
  {
  }
}
