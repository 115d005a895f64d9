/** A window scan over the stored slots by whichever access path fits the plan. */
module WindowScanner {
  import opened Values
  import opened Sequences
  import opened Ranking
  import opened Rows
  import opened Predicates
  import opened OrderedWindow
  import opened BoundedWindow
  import opened OrderedIndex
  import opened CandidateIndex

  /** The rows of a topic in dense slots, with everything derived from them. */
  datatype ScanState = ScanState(
    slots: seq<Entry>,
    columns: Columns,
    orderedSlotIndexes: map<OrderColumn, seq<nat>>,
    scalarPredicateIndexes: ScalarPredicateIndexes
  )

  ghost predicate IndexesList(indexes: map<OrderColumn, seq<nat>>, slots: seq<Entry>, columns: Columns,
                              live: set<nat>)
  {
    forall o | o in indexes :: o.field in columns && IndexLists(indexes[o], slots, o, live)
  }

  /** Columns mirror the rows, every sorted index is the sorted permutation of the slots, and every retained
      bucket is exact. */
  ghost predicate ValidState(st: ScanState) {
    && Mirrors(st.columns, st.slots) && Live(st.slots, AllSlots(st.slots))
    && IndexesList(st.orderedSlotIndexes, st.slots, st.columns, AllSlots(st.slots))
    && BucketsExact(st.scalarPredicateIndexes, st.columns, AllSlots(st.slots))
  }

  /** A scan may build indexes and buckets but leaves the rows alone. */
  ghost predicate SameRows(st: ScanState, st': ScanState) {
    st'.slots == st.slots && st'.columns == st.columns
  }

  datatype ScanPlan = ScanPlan(
    predicate_: PredicatePlan,
    storageOrderBy: Option<seq<OrderColumn>>,
    matches: Row -> bool,
    compare: (Entry, Entry) -> int,
    offset: nat,
    limit: Option<nat>
  )

  /** What a scan relies on: sound hints about existing fields, a row order, and an ordering hint that says
      the same as the row order. */
  ghost predicate ValidPlan(plan: ScanPlan, columns: Columns) {
    && Sound(plan.predicate_, plan.matches)
    && (forall p | p in plan.predicate_.filters :: p.field in columns)
    && IsRowOrder(plan.compare)
    && (plan.storageOrderBy.Some? ==>
          forall l, r :: plan.compare(l, r) == CompareRows(l, r, plan.storageOrderBy.value))
  }

  // ----- Matching one slot -----

  predicate SlotHintsHold(filters: seq<FilterPlan>, columns: Columns, slot: nat, exact: bool) {
    forall i | 0 <= i < |filters| :: filters[i].field in columns ==>
      HintHolds(filters[i], ColumnValue(columns, filters[i].field, slot), exact)
  }

  function RawPredicateMatchesSlot(st: ScanState, plan: ScanPlan): nat -> bool {
    if plan.predicate_.callbackSkippable then
      (slot: nat) => SlotHintsHold(plan.predicate_.filters, st.columns, slot, true)
    else
      (slot: nat) => SlotHintsHold(plan.predicate_.filters, st.columns, slot, false)
                     && slot < |st.slots| && plan.matches(st.slots[slot].row)
  }

  /** Whether it reads columns or rows, the slot matcher decides what the query's predicate decides. */
  lemma MatchingASlotIsMatchingItsRow(st: ScanState, plan: ScanPlan, slot: nat)
    requires ValidState(st) && ValidPlan(plan, st.columns) && slot < |st.slots|
    ensures RawPredicateMatchesSlot(st, plan)(slot) == plan.matches(st.slots[slot].row)
  {
    var row, filters := st.slots[slot].row, plan.predicate_.filters;
    forall exact
      ensures SlotHintsHold(filters, st.columns, slot, exact) <==> RowHintsHold(filters, row, exact)
    {
      forall i | 0 <= i < |filters|
        ensures filters[i].field in st.columns
        ensures ColumnValue(st.columns, filters[i].field, slot) == FieldValue(row, filters[i].field)
      {
        assert filters[i] in filters;
      }
    }
  }

  // ----- Candidate slots -----

  /** The list has every slot whose row satisfies all hints. */
  ghost predicate IsCandidateList(candidates: seq<nat>, slots: seq<Entry>, filters: seq<FilterPlan>, exact: bool) {
    && NoDuplicates(candidates) && (forall s | s in candidates :: s < |slots|)
    && forall s: nat | s < |slots| && RowHintsHold(filters, slots[s].row, exact) :: s in candidates
  }

  method ScalarEqualityCandidateSlots(st: ScanState, field: string, valueKeys: seq<Value>, allowIndexBuild: bool,
                                      maxSlotCount: nat)
    returns (candidates: Option<seq<nat>>, st': ScanState)
    requires ValidState(st)
    ensures ValidState(st') && SameRows(st, st')
    ensures candidates.Some? ==>
      && field in st.columns && NoDuplicates(candidates.value)
      && forall s: nat :: s in candidates.value <==>
           s < |st.slots| && ScalarEqualityKey(st.columns[field][s]).Some? && st.columns[field][s] in valueKeys
  {
    if field !in st.columns || (field !in st.scalarPredicateIndexes && !allowIndexBuild) {
      return None, st;
    }
    var index :=
      if field in st.scalarPredicateIndexes then st.scalarPredicateIndexes[field]
        else ScalarPredicateFieldIndex(map[], {});
    var column := st.columns[field];
    assert ColumnSlots(column) == AllSlots(st.slots);
    assert field in st.scalarPredicateIndexes ==> FieldRetained(index, st.columns, field, AllSlots(st.slots));
    var slots, index' := UnionScalarPredicateSlots(index, column, valueKeys, allowIndexBuild, maxSlotCount);
    var indexes := PruneEmptyScalarPredicateIndex(st.scalarPredicateIndexes[field := index'], field);
    UpdatedIsRetained(st.scalarPredicateIndexes, st.columns, {field}, field, index', AllSlots(st.slots));
    st' := st.(scalarPredicateIndexes := indexes);
    if slots.None? {
      return None, st';
    }
    var ordered := StableCandidateSlotOrder(slots.value);
    return Some(ordered), st';
  }

  method RangeCandidateSlots(st: ScanState, metadata: Metadata, field: string, filters: seq<FilterPlan>,
                             maxSlotCount: nat)
    returns (candidates: Option<seq<nat>>)
    requires ValidState(st)
    ensures candidates.Some? ==> IsCandidateList(candidates.value, st.slots, filters, true)
  {
    if field !in st.columns {
      return None;
    }
    var bounds := OrderedRangeBoundsForField(filters, field, metadata);
    if bounds.None? {
      return None;
    }
    HintsBoundTheField(st, filters, field, bounds.value);
    if RangeBoundsAreEmpty(bounds.value) {
      return Some([]);
    }
    var order := OrderColumn(field, Ascending);
    if order !in st.orderedSlotIndexes {
      return None;
    }
    var index := st.orderedSlotIndexes[order];
    IndexOrdersColumn(index, st.slots, st.columns, order, AllSlots(st.slots));
    var spans := OrderedSlotIndexSpans(index, st.columns[field], Ascending, bounds.value, None);
    var spanSlotCount := OrderedRawWindowSpanSlotCount(spans);
    if spanSlotCount >= |st.slots| || spanSlotCount >= maxSlotCount {
      return None;
    }
    var found := SlotsFromOrderedSpans(index, spans);
    SpanSlotsMembers(index, spans);
    SpanSlotsHaveSought(st, index, order, spans, bounds.value, None);
    var ordered := StableCandidateSlotOrder(set s | s in found);
    return Some(ordered);
  }

  function OrderedRawWindowSpanSlotCount(spans: seq<Span>): nat
    requires forall a | 0 <= a < |spans| :: spans[a].startIndex <= spans[a].endIndex
  {
    if spans == [] then 0
    else
      var last := spans[|spans| - 1];
      OrderedRawWindowSpanSlotCount(spans[..|spans| - 1]) + last.endIndex - last.startIndex
  }

  lemma HintsBoundTheField(st: ScanState, filters: seq<FilterPlan>, field: string, bounds: RangeBounds)
    requires ValidState(st) && field in st.columns
    requires forall v | RangeHintsHold(filters, field, v) :: EqualityValueSatisfiesRangeBounds(v, bounds)
    ensures forall s: nat | s < |st.slots| && RowHintsHold(filters, st.slots[s].row, true) ::
      EqualityValueSatisfiesRangeBounds(st.columns[field][s], bounds)
  {
    forall s: nat | s < |st.slots| && RowHintsHold(filters, st.slots[s].row, true)
      ensures EqualityValueSatisfiesRangeBounds(st.columns[field][s], bounds)
    {
      assert RangeHintsHold(filters, field, st.columns[field][s]);
    }
  }

  /** Reading the spans of an index yields every live slot whose value is sought, and no other. */
  lemma SpanSlotsHaveSought(st: ScanState, index: seq<nat>, order: OrderColumn, spans: seq<Span>, bounds: RangeBounds,
                            equalityValues: Option<seq<Value>>)
    requires ValidState(st) && order.field in st.columns && IndexLists(index, st.slots, order, AllSlots(st.slots))
    requires InIndexOrder(spans, |index|) && ColumnOrdered(index, st.columns[order.field], order.direction)
    requires forall i | 0 <= i < |index| ::
      Covered(spans, i) <==> Sought(st.columns[order.field][index[i]], bounds, equalityValues)
    ensures forall s: nat :: s in SlotsFromOrderedSpans(index, spans) <==>
      s < |st.slots| && Sought(st.columns[order.field][s], bounds, equalityValues)
  {
    SpanSlotsMembers(index, spans);
    forall s: nat
      ensures s in SlotsFromOrderedSpans(index, spans) <==>
        s < |st.slots| && Sought(st.columns[order.field][s], bounds, equalityValues)
    {
      assert s in index <==> s in AllSlots(st.slots);
    }
  }

  datatype SelectionOptions = SelectionOptions(
    allowScalarIndexBuild: bool,
    exactRangeCandidates: bool,
    excludedField: Option<string>,
    maxSlotCount: nat
  )

  /** The slots one hint leaves, if storage can list them. */
  method PredicateCandidateSlots(st: ScanState, metadata: Metadata, filter: FilterPlan, filters: seq<FilterPlan>,
                                 options: SelectionOptions)
    returns (candidates: Option<seq<nat>>, st': ScanState)
    requires ValidState(st) && filter in filters
    ensures ValidState(st') && SameRows(st, st')
    ensures candidates.Some? ==> IsCandidateList(candidates.value, st.slots, filters, options.exactRangeCandidates)
  {
    candidates, st' := None, st;
    match filter
    case EqPlan(field, value) =>
      var key := ScalarEqualityKey(value);
      if key.Some? {
        candidates, st' :=
          ScalarEqualityCandidateSlots(st, field, [key.value], options.allowScalarIndexBuild, options.maxSlotCount);
        KeyedSlotsAreCandidates(st, filter, filters, options.exactRangeCandidates, [key.value], candidates);
      }
    case InPlan(field, values, valueKeys) =>
      if valueKeys.Some? {
        var keys := ListOf(valueKeys.value);
        candidates, st' :=
          ScalarEqualityCandidateSlots(st, field, keys, options.allowScalarIndexBuild, options.maxSlotCount);
        KeyedSlotsAreCandidates(st, filter, filters, options.exactRangeCandidates, keys, candidates);
      } else if Undefined !in values {
        var keys := ListOf(ScalarEqualityKeys(values));
        candidates, st' :=
          ScalarEqualityCandidateSlots(st, field, keys, options.allowScalarIndexBuild, options.maxSlotCount);
        KeyedSlotsAreCandidates(st, filter, filters, options.exactRangeCandidates, keys, candidates);
      }
    case RangePlan(field, _, _) =>
      if options.exactRangeCandidates {
        candidates := RangeCandidateSlots(st, metadata, field, filters, options.maxSlotCount);
      }
    case _ =>
  }

  lemma KeyedSlotsAreCandidates(st: ScanState, filter: FilterPlan, filters: seq<FilterPlan>, exact: bool,
                                keys: seq<Value>, candidates: Option<seq<nat>>)
    requires ValidState(st) && filter in filters
    requires forall v, e | HintHolds(filter, v, e) :: ScalarEqualityKey(v).Some? && v in keys
    requires candidates.Some? ==>
      && filter.field in st.columns && NoDuplicates(candidates.value)
      && forall s: nat :: s in candidates.value <==>
           s < |st.slots| && ScalarEqualityKey(st.columns[filter.field][s]).Some? && st.columns[filter.field][s] in keys
    ensures candidates.Some? ==> IsCandidateList(candidates.value, st.slots, filters, exact)
  {
    if candidates.Some? {
      forall s: nat | s < |st.slots| && RowHintsHold(filters, st.slots[s].row, exact)
        ensures s in candidates.value
      {
        assert HintHolds(filter, FieldValue(st.slots[s].row, filter.field), exact);
      }
    }
  }

  /** The shortest candidate list any hint offers, if it is worth using. Whatever is chosen, no matching
      slot is missed. */
  method SelectedPredicateCandidateSlots(st: ScanState, metadata: Metadata, filters: seq<FilterPlan>,
                                         options: SelectionOptions)
    returns (selected: Option<seq<nat>>, st': ScanState)
    requires ValidState(st)
    ensures ValidState(st') && SameRows(st, st')
    ensures selected.Some? ==> IsCandidateList(selected.value, st.slots, filters, options.exactRangeCandidates)
  {
    selected, st' := None, st;
    for i := 0 to |filters|
      invariant ValidState(st') && SameRows(st, st')
      invariant selected.Some? ==> IsCandidateList(selected.value, st.slots, filters, options.exactRangeCandidates)
    {
      var filter := filters[i];
      if Some(filter.field) != options.excludedField {
        var candidate;
        candidate, st' := PredicateCandidateSlots(st', metadata, filter, filters, options);
        if candidate.Some? && |candidate.value| < options.maxSlotCount
           && (selected.None? || |candidate.value| < |selected.value|) {
          selected := candidate;
        }
      }
    }
    if selected.Some? && |selected.value| >= |st.slots| {
      selected := None;
    }
  }

  // ----- The ordered window -----

  datatype OrderedRawWindow = OrderedRawWindow(candidateExcludedField: string, slots: seq<nat>, spans: seq<Span>)

  predicate PredicateFiltersAreOrderedIndexAdmissible(filters: seq<FilterPlan>, orderField: string) {
    forall i | 0 <= i < |filters| ::
      filters[i].EqPlan? || filters[i].InPlan? || IsRangeFilterOn(filters[i], orderField)
  }

  /** The window's spans read slots in scan order and miss no matching slot. */
  ghost predicate IsOrderedWindow(window: OrderedRawWindow, st: ScanState, plan: ScanPlan) {
    && plan.storageOrderBy.Some? && plan.limit.Some?
    && InIndexOrder(window.spans, |window.slots|)
    && Sorted(window.slots, SlotOrder(st.slots, plan.compare))
    && (forall s | s in window.slots :: s < |st.slots|)
    && forall s: nat | s < |st.slots| && plan.matches(st.slots[s].row) ::
      s in SlotsFromOrderedSpans(window.slots, window.spans)
  }

  method RawWindowOrderedSlotIndex(st: ScanState, order: OrderColumn) returns (index: seq<nat>, st': ScanState)
    requires ValidState(st) && order.field in st.columns
    ensures ValidState(st') && SameRows(st, st')
    ensures IndexLists(index, st.slots, order, AllSlots(st.slots))
  {
    if order in st.orderedSlotIndexes {
      return st.orderedSlotIndexes[order], st;
    }
    index := BuildIndex(st.slots, st.columns, order);
    st' := st.(orderedSlotIndexes := st.orderedSlotIndexes[order := index]);
  }

  method RawWindowOrderedWindow(st: ScanState, metadata: Metadata, plan: ScanPlan)
    returns (window: Option<OrderedRawWindow>, st': ScanState)
    requires ValidState(st) && ValidPlan(plan, st.columns)
    ensures ValidState(st') && SameRows(st, st')
    ensures window.Some? ==> IsOrderedWindow(window.value, st, plan)
  {
    if plan.limit.None? || plan.limit.value == 0 || plan.storageOrderBy.None? || |plan.storageOrderBy.value| != 1 {
      return None, st;
    }
    var order, filters := plan.storageOrderBy.value[0], plan.predicate_.filters;
    if !plan.predicate_.callbackSkippable || !PredicateFiltersAreOrderedIndexAdmissible(filters, order.field)
       || order.field !in st.columns {
      return None, st;
    }
    var rangeBounds := OrderedRangeBoundsForField(filters, order.field, metadata);
    if rangeBounds.Some? {
      HintsBoundTheField(st, filters, order.field, rangeBounds.value);
      if RangeBoundsAreEmpty(rangeBounds.value) {
        return Some(OrderedRawWindow(order.field, [], [])), st;
      }
    }
    var seekBounds := if rangeBounds.Some? then rangeBounds.value else NO_RANGE_BOUNDS;
    var equalityValues := OrderedEqualityValuesForField(filters, order.field, metadata);
    var index;
    index, st' := RawWindowOrderedSlotIndex(st, order);
    IndexOrdersColumn(index, st.slots, st.columns, order, AllSlots(st.slots));
    var spans := OrderedSlotIndexSpans(index, st.columns[order.field], order.direction, seekBounds, equalityValues);
    SpanSlotsHaveSought(st, index, order, spans, seekBounds, equalityValues);
    MatchesAreSought(st, plan, order.field, seekBounds, equalityValues);
    assert plan.storageOrderBy.value == [order];
    return Some(OrderedRawWindow(order.field, index, spans)), st';
  }

  lemma MatchesAreSought(st: ScanState, plan: ScanPlan, field: string, bounds: RangeBounds,
                         equalityValues: Option<seq<Value>>)
    requires ValidState(st) && ValidPlan(plan, st.columns) && plan.predicate_.callbackSkippable && field in st.columns
    requires forall s: nat | s < |st.slots| && RowHintsHold(plan.predicate_.filters, st.slots[s].row, true) ::
      EqualityValueSatisfiesRangeBounds(st.columns[field][s], bounds)
    requires equalityValues.Some? ==>
      forall v | EqualityHintsHold(plan.predicate_.filters, field, v) :: v in equalityValues.value
    ensures forall s: nat | s < |st.slots| && plan.matches(st.slots[s].row) ::
      Sought(st.columns[field][s], bounds, equalityValues)
  {
    forall s: nat | s < |st.slots| && plan.matches(st.slots[s].row)
      ensures Sought(st.columns[field][s], bounds, equalityValues)
    {
      assert RowHintsHold(plan.predicate_.filters, st.slots[s].row, true);
      assert EqualityHintsHold(plan.predicate_.filters, field, st.columns[field][s]);
    }
  }

  // ----- From slots back to entries -----

  lemma LiveMeansDistinct(slots: seq<Entry>)
    ensures Live(slots, AllSlots(slots)) <==> DistinctKeys(slots)
  {
  }

  function EntriesAt(slots: seq<Entry>, window: seq<nat>): (entries: seq<Entry>)
    requires forall s | s in window :: s < |slots|
    ensures |entries| == |window|
  {
    seq(|window|, i requires 0 <= i < |window| => assert window[i] in window; slots[window[i]])
  }

  lemma SliceOfEntries(slots: seq<Entry>, listed: seq<nat>, window: seq<nat>, entries: seq<Entry>, offset: nat,
                       limit: Option<nat>)
    requires (forall s | s in listed :: s < |slots|) && EntriesAt(slots, listed) == entries
    requires window == Slice(listed, offset, limit)
    ensures (forall s | s in window :: s < |slots|) && EntriesAt(slots, window) == Slice(entries, offset, limit)
  {
    assert forall s | s in window :: s in listed;
    var sliced := Slice(entries, offset, limit);
    assert |sliced| == |window|;
    var start := if offset <= |listed| then offset else |listed|;
    forall i | 0 <= i < |window|
      ensures EntriesAt(slots, window)[i] == sliced[i]
    {
      assert window[i] == listed[start + i] && sliced[i] == entries[start + i];
    }
  }

  /** The ranking of the matching slots, read as entries, is the query's view of the stored table. */
  lemma RankedSlotsAreTheView(slots: seq<Entry>, chosen: set<nat>, compareSlots: (nat, nat) -> int, q: Query)
    requires DistinctKeys(slots) && IsRowOrder(q.compare)
    requires forall s: nat :: s in chosen <==> s < |slots| && q.matches(slots[s].row)
    requires TotalOn(compareSlots, chosen)
    requires forall l: nat, r: nat | l < |slots| && r < |slots| :: compareSlots(l, r) == q.compare(slots[l], slots[r])
    ensures |chosen| == |Matching(TableOf(slots), q.matches)|
    ensures forall s: nat | s in Ranked(chosen, compareSlots) :: s < |slots|
    ensures EntriesAt(slots, Ranked(chosen, compareSlots)) == View(TableOf(slots), q)
  {
    var ranked := Ranked(chosen, compareSlots);
    assert forall s: nat | s in ranked :: s in chosen;
    var entries, all := EntriesAt(slots, ranked), Matching(TableOf(slots), q.matches);
    EntriesListMatching(slots, chosen, ranked, q);
    forall i, j | 0 <= i < j < |entries|
      ensures q.compare(entries[i], entries[j]) < 0
    {
      assert ranked[i] in ranked && ranked[j] in ranked && compareSlots(ranked[i], ranked[j]) < 0;
    }
    MatchingIsTotal(TableOf(slots), q);
    SortedListingIsRanked(entries, all, q.compare);
  }

  lemma EntriesListMatching(slots: seq<Entry>, chosen: set<nat>, listed: seq<nat>, q: Query)
    requires DistinctKeys(slots)
    requires forall s: nat :: s in chosen <==> s < |slots| && q.matches(slots[s].row)
    requires forall s :: s in listed <==> s in chosen
    ensures forall s | s in listed :: s < |slots|
    ensures forall x :: x in EntriesAt(slots, listed) <==> x in Matching(TableOf(slots), q.matches)
  {
    var entries := EntriesAt(slots, listed);
    forall x
      ensures x in entries <==> Selected(x, TableOf(slots), q.matches)
    {
      if x in entries {
        var i :| 0 <= i < |entries| && entries[i] == x;
        assert listed[i] in listed;
      }
      if Selected(x, TableOf(slots), q.matches) {
        var s :| 0 <= s < |slots| && slots[s].key == x.key;
        assert s in listed;
        var i :| 0 <= i < |listed| && listed[i] == s;
        assert entries[i] == x;
      }
    }
  }

  // ----- The scan -----

  const MAX_SORTED_BOUNDED_RAW_WINDOW_END: nat := 1_024
  const MAX_HEAP_BOUNDED_RAW_WINDOW_END: nat := 100_000
  const MATERIALIZED_PREDICATE_CANDIDATE_SLOT_BUDGET: nat := MAX_RETAINED_SCALAR_PREDICATE_BUCKET_SLOTS + 1

  datatype BoundedRawWindowStrategy = HeapStrategy | SortedStrategy | Unbounded

  function BoundedRawWindow(offset: nat, limit: Option<nat>, candidateCount: nat): BoundedRawWindowStrategy {
    if limit.None? || limit.value == 0 then Unbounded
    else
      var windowEnd := offset + limit.value;
      if windowEnd <= MAX_SORTED_BOUNDED_RAW_WINDOW_END then SortedStrategy
      else if windowEnd <= MAX_HEAP_BOUNDED_RAW_WINDOW_END && windowEnd * 4 <= candidateCount then HeapStrategy
      else Unbounded
  }

  /** Scans a list of slots (all of them, or candidates) with the strategy its size and the window call for. */
  method ScanRawWindowSlots(slots: seq<nat>, matches: nat -> bool, compareSlots: (nat, nat) -> int, offset: nat,
                            limit: Option<nat>, ghost all: set<nat>)
    returns (window: seq<nat>, totalRows: nat)
    requires TotalOn(compareSlots, all) && NoDuplicates(slots) && forall s | s in slots :: s in all
    ensures TotalOn(compareSlots, Chosen(slots, matches))
    ensures IsWindow(window, totalRows, Chosen(slots, matches), compareSlots, offset, limit)
  {
    match BoundedRawWindow(offset, limit, |slots|)
    case SortedStrategy =>
      window, totalRows := ScanBoundedSorted(slots, matches, compareSlots, offset, limit.value, all);
    case HeapStrategy =>
      window, totalRows := ScanBoundedHeap(slots, matches, compareSlots, offset, limit.value, all);
    case Unbounded =>
      window, totalRows := ScanSorted(slots, matches, compareSlots, offset, limit, all);
  }

  method CountRawWindowSlots(slots: seq<nat>, matches: nat -> bool) returns (totalRows: nat)
    requires NoDuplicates(slots)
    ensures totalRows == |Chosen(slots, matches)|
  {
    totalRows := 0;
    for i := 0 to |slots|
      invariant totalRows == |Chosen(slots[..i], matches)|
    {
      ChosenStep(slots, matches, i);
      if matches(slots[i]) {
        totalRows := totalRows + 1;
      }
    }
    assert slots[..|slots|] == slots;
  }

  /** The comparator over columns when the order can be read there, else the one over rows. */
  function RawWindowSlotComparator(st: ScanState, plan: ScanPlan): (nat, nat) -> int {
    if plan.storageOrderBy.Some? && FieldsExist(st.columns, plan.storageOrderBy.value) then
      StorageOrder(st.slots, st.columns, plan.storageOrderBy.value)
    else SlotOrder(st.slots, plan.compare)
  }

  lemma ComparatorOrdersSlots(st: ScanState, plan: ScanPlan)
    requires ValidState(st) && ValidPlan(plan, st.columns)
    ensures forall l: nat, r: nat | l < |st.slots| && r < |st.slots| ::
      RawWindowSlotComparator(st, plan)(l, r) == plan.compare(st.slots[l], st.slots[r])
    ensures TotalOn(RawWindowSlotComparator(st, plan), AllSlots(st.slots))
  {
    if plan.storageOrderBy.Some? && FieldsExist(st.columns, plan.storageOrderBy.value) {
      StorageOrderAgrees(st.slots, st.columns, plan.storageOrderBy.value);
      StorageIsTotal(st.slots, st.columns, plan.storageOrderBy.value, AllSlots(st.slots));
    } else {
      SlotsAreTotal(st.slots, plan.compare, AllSlots(st.slots));
    }
  }

  /** The slots a scan has to find. */
  ghost predicate ChoosesMatches(chosen: set<nat>, st: ScanState, plan: ScanPlan) {
    forall s: nat :: s in chosen <==> s < |st.slots| && plan.matches(st.slots[s].row)
  }

  /** The slot matcher decides, for every slot, what the query's predicate decides for its row. */
  ghost predicate Decides(matchesSlot: nat -> bool, st: ScanState, plan: ScanPlan) {
    forall s: nat | s < |st.slots| :: matchesSlot(s) == plan.matches(st.slots[s].row)
  }

  lemma RawPredicateDecides(st: ScanState, plan: ScanPlan)
    requires ValidState(st) && ValidPlan(plan, st.columns)
    ensures Decides(RawPredicateMatchesSlot(st, plan), st, plan)
  {
    forall s: nat | s < |st.slots|
      ensures RawPredicateMatchesSlot(st, plan)(s) == plan.matches(st.slots[s].row)
    {
      MatchingASlotIsMatchingItsRow(st, plan, s);
    }
  }

  /** Any listing of slots that misses no match chooses exactly the matches. */
  lemma ListingChoosesMatches(st: ScanState, plan: ScanPlan, slots: seq<nat>, matchesSlot: nat -> bool)
    requires Decides(matchesSlot, st, plan) && forall s | s in slots :: s < |st.slots|
    requires forall s: nat | s < |st.slots| && plan.matches(st.slots[s].row) :: s in slots
    ensures ChoosesMatches(Chosen(slots, matchesSlot), st, plan)
  {
    ChosenMembers(slots, matchesSlot);
  }

  ghost predicate CandidatesFit(candidates: Option<seq<nat>>, st: ScanState, plan: ScanPlan) {
    candidates.Some? ==>
      IsCandidateList(candidates.value, st.slots, plan.predicate_.filters, plan.predicate_.callbackSkippable)
  }

  /** The slots to look at: the candidates, or all slots when there are none. */
  method ListedSlots(st: ScanState, candidates: Option<seq<nat>>, ghost plan: ScanPlan, ghost matchesSlot: nat -> bool)
    returns (slots: seq<nat>)
    requires ValidPlan(plan, st.columns) && Decides(matchesSlot, st, plan) && CandidatesFit(candidates, st, plan)
    ensures NoDuplicates(slots) && forall s | s in slots :: s in AllSlots(st.slots)
    ensures ChoosesMatches(Chosen(slots, matchesSlot), st, plan)
  {
    slots := if candidates.Some? then candidates.value else SlotNumbers(|st.slots|);
    ListingChoosesMatches(st, plan, slots, matchesSlot);
  }

  function PlanQuery(plan: ScanPlan): Query {
    Query(plan.matches, plan.compare)
  }

  lemma WindowOfSlots(st: ScanState, plan: ScanPlan, chosen: set<nat>, compareSlots: (nat, nat) -> int,
                      windowSlots: seq<nat>, totalRows: nat)
    requires ValidState(st) && ValidPlan(plan, st.columns) && ChoosesMatches(chosen, st, plan)
    requires TotalOn(compareSlots, chosen)
    requires forall l: nat, r: nat | l < |st.slots| && r < |st.slots| ::
      compareSlots(l, r) == plan.compare(st.slots[l], st.slots[r])
    requires IsWindow(windowSlots, totalRows, chosen, compareSlots, plan.offset, plan.limit)
    ensures DistinctKeys(st.slots) && forall s | s in windowSlots :: s < |st.slots|
    ensures totalRows == |Matching(TableOf(st.slots), plan.matches)|
    ensures EntriesAt(st.slots, windowSlots) ==
            Slice(View(TableOf(st.slots), PlanQuery(plan)), plan.offset, plan.limit)
  {
    LiveMeansDistinct(st.slots);
    RankedSlotsAreTheView(st.slots, chosen, compareSlots, PlanQuery(plan));
    SliceOfEntries(st.slots, Ranked(chosen, compareSlots), windowSlots, View(TableOf(st.slots), PlanQuery(plan)),
                plan.offset, plan.limit);
  }

  /** The rows of a window and the exact number of matching rows. Whatever indexes and buckets exist and
      whichever access path is taken, the answer is the slice of the query's view on the stored table. */
  method ScanTopicRawWindow(st: ScanState, metadata: Metadata, plan: ScanPlan)
    returns (window: seq<Entry>, totalRows: nat, st': ScanState)
    requires ValidState(st) && ValidPlan(plan, st.columns)
    ensures ValidState(st') && SameRows(st, st') && DistinctKeys(st.slots)
    ensures totalRows == |Matching(TableOf(st.slots), plan.matches)|
    ensures window == Slice(View(TableOf(st.slots), PlanQuery(plan)), plan.offset, plan.limit)
  {
    var matchesSlot := RawPredicateMatchesSlot(st, plan);
    RawPredicateDecides(st, plan);
    var filters, exact := plan.predicate_.filters, plan.predicate_.callbackSkippable;
    var maxSlotCount := Min(|st.slots|, MATERIALIZED_PREDICATE_CANDIDATE_SLOT_BUDGET);
    var candidates;
    if plan.limit == Some(0) {
      candidates, st' :=
        SelectedPredicateCandidateSlots(st, metadata, filters, SelectionOptions(true, exact, None, maxSlotCount));
      totalRows := CountWindow(st, plan, matchesSlot, candidates);
      return [], totalRows, st';
    }
    var orderedWindow;
    orderedWindow, st' := RawWindowOrderedWindow(st, metadata, plan);
    if orderedWindow.Some? {
      window, totalRows, st' := ScanOrderedOrCandidates(st', metadata, plan, matchesSlot, orderedWindow.value);
      return;
    }
    candidates, st' :=
      SelectedPredicateCandidateSlots(st', metadata, filters, SelectionOptions(true, exact, None, maxSlotCount));
    window, totalRows := ScanListedSlots(st, plan, matchesSlot, candidates);
  }

  /** The entries of a scan over the candidate slots, or over all slots when there are no candidates. */
  method ScanListedSlots(st: ScanState, plan: ScanPlan, matchesSlot: nat -> bool, candidates: Option<seq<nat>>)
    returns (window: seq<Entry>, totalRows: nat)
    requires ValidState(st) && ValidPlan(plan, st.columns) && Decides(matchesSlot, st, plan)
    requires CandidatesFit(candidates, st, plan)
    ensures DistinctKeys(st.slots) && totalRows == |Matching(TableOf(st.slots), plan.matches)|
    ensures window == Slice(View(TableOf(st.slots), PlanQuery(plan)), plan.offset, plan.limit)
  {
    var compareSlots := RawWindowSlotComparator(st, plan);
    ComparatorOrdersSlots(st, plan);
    var slots := ListedSlots(st, candidates, plan, matchesSlot);
    var windowSlots;
    windowSlots, totalRows :=
      ScanRawWindowSlots(slots, matchesSlot, compareSlots, plan.offset, plan.limit, AllSlots(st.slots));
    WindowOfSlots(st, plan, Chosen(slots, matchesSlot), compareSlots, windowSlots, totalRows);
    window := EntriesAt(st.slots, windowSlots);
  }

  /** A window without room only needs the count. */
  method CountWindow(st: ScanState, plan: ScanPlan, matchesSlot: nat -> bool, candidates: Option<seq<nat>>)
    returns (totalRows: nat)
    requires ValidState(st) && ValidPlan(plan, st.columns) && Decides(matchesSlot, st, plan)
    requires CandidatesFit(candidates, st, plan)
    requires plan.limit == Some(0)
    ensures DistinctKeys(st.slots) && totalRows == |Matching(TableOf(st.slots), plan.matches)|
    ensures [] == Slice(View(TableOf(st.slots), PlanQuery(plan)), plan.offset, plan.limit)
  {
    hide ValidState, ValidPlan, Decides, TotalOn, Chosen;
    var slots := ListedSlots(st, candidates, plan, matchesSlot);
    totalRows := CountRawWindowSlots(slots, matchesSlot);
    ghost var compareSlots, chosen := RawWindowSlotComparator(st, plan), Chosen(slots, matchesSlot);
    ComparatorOrdersSlots(st, plan);
    TotalOnSubset(compareSlots, AllSlots(st.slots), chosen);
    WindowOfSlots(st, plan, chosen, compareSlots, [], totalRows);
  }

  /** Reads the ordered window, unless an equality bucket leaves fewer slots to look at. */
  method ScanOrderedOrCandidates(st: ScanState, metadata: Metadata, plan: ScanPlan, matchesSlot: nat -> bool,
                                 orderedWindow: OrderedRawWindow)
    returns (window: seq<Entry>, totalRows: nat, st': ScanState)
    requires ValidState(st) && ValidPlan(plan, st.columns) && plan.limit.Some? && Decides(matchesSlot, st, plan)
    requires IsOrderedWindow(orderedWindow, st, plan)
    ensures ValidState(st') && SameRows(st, st') && DistinctKeys(st.slots)
    ensures totalRows == |Matching(TableOf(st.slots), plan.matches)|
    ensures window == Slice(View(TableOf(st.slots), PlanQuery(plan)), plan.offset, plan.limit)
  {
    var orderedSlotCount := OrderedRawWindowSpanSlotCount(orderedWindow.spans);
    var exact := plan.predicate_.callbackSkippable;
    var options := SelectionOptions(false, exact, Some(orderedWindow.candidateExcludedField),
                                    Min(orderedSlotCount, MATERIALIZED_PREDICATE_CANDIDATE_SLOT_BUDGET));
    var candidates;
    candidates, st' := SelectedPredicateCandidateSlots(st, metadata, plan.predicate_.filters, options);
    if candidates.Some? && |candidates.value| < orderedSlotCount {
      window, totalRows := ScanListedSlots(st, plan, matchesSlot, candidates);
      return;
    }
    window, totalRows := ScanRawWindowOrderedSlots(st, plan, matchesSlot, orderedWindow);
  }

  method ScanRawWindowOrderedSlots(st: ScanState, plan: ScanPlan, matchesSlot: nat -> bool,
                                   orderedWindow: OrderedRawWindow)
    returns (window: seq<Entry>, totalRows: nat)
    requires ValidState(st) && ValidPlan(plan, st.columns) && plan.limit.Some? && Decides(matchesSlot, st, plan)
    requires IsOrderedWindow(orderedWindow, st, plan)
    ensures DistinctKeys(st.slots) && totalRows == |Matching(TableOf(st.slots), plan.matches)|
    ensures window == Slice(View(TableOf(st.slots), PlanQuery(plan)), plan.offset, plan.limit)
  {
    var slots := SlotsFromOrderedSpans(orderedWindow.slots, orderedWindow.spans);
    ghost var compareSlots := SlotOrder(st.slots, plan.compare);
    SpanSlotsMembers(orderedWindow.slots, orderedWindow.spans);
    SpanSlotsKeepOrder(orderedWindow.slots, orderedWindow.spans, compareSlots);
    SlotsAreTotal(st.slots, plan.compare, AllSlots(st.slots));
    forall s: nat | s in slots
      ensures s in AllSlots(st.slots)
    {
      var i :| 0 <= i < |orderedWindow.slots| && orderedWindow.slots[i] == s;
      assert s in orderedWindow.slots;
    }
    ListingChoosesMatches(st, plan, slots, matchesSlot);
    var windowSlots;
    windowSlots, totalRows :=
      ScanOrdered(slots, matchesSlot, plan.offset, plan.limit.value, compareSlots, AllSlots(st.slots));
    WindowOfSlots(st, plan, Chosen(slots, matchesSlot), compareSlots, windowSlots, totalRows);
    window := EntriesAt(st.slots, windowSlots);
  }
}
