/** The stored rows of a topic and the upkeep of everything derived from them. */
module RowStorage {
  import opened Values
  import opened Sequences
  import opened Ranking
  import opened Rows
  import opened Predicates
  import opened OrderedIndex
  import opened CandidateIndex
  import opened WindowScanner
  import opened ChangeJournal

  // ----- Columns -----

  predicate HasKind(kind: ColumnKind, value: Value) {
    match kind
    case GenericColumn => true
    case StringColumn => value.Text? || value == Undefined
    case NumberColumn => value.Number? || value == Undefined
    case BigIntColumn => value.BigInt? || value == Undefined
    case BigDecimalColumn => value.BigDecimal? || value == Undefined
  }

  /** A typed column holds values of its kind and drops all others. */
  function ColumnEntry(kind: ColumnKind, value: Value): Value {
    if HasKind(kind, value) then value else Undefined
  }

  function ColumnSet(column: seq<Value>, slot: nat, value: Value): seq<Value>
    requires slot <= |column|
  {
    if slot == |column| then column + [value] else column[slot := value]
  }

  function SlotSet(slots: seq<Entry>, slot: nat, entry: Entry): seq<Entry>
    requires slot <= |slots|
  {
    if slot == |slots| then slots + [entry] else slots[slot := entry]
  }

  /** A row as decoded by the schema: no fields but the schema's, each of its column's kind. */
  ghost predicate WellTyped(row: Row, metadata: Metadata) {
    && row.fields.Keys <= metadata.columnKinds.Keys
    && forall f | f in metadata.columnKinds :: HasKind(metadata.columnKinds[f], FieldValue(row, f))
  }

  ghost predicate FieldsAreColumns(columns: Columns, metadata: Metadata) {
    columns.Keys == metadata.columnKinds.Keys == Elements(metadata.fieldOrder) && NoDuplicates(metadata.fieldOrder)
  }

  /** Writes one row's fields into the columns. */
  method WriteColumns(slots: seq<Entry>, columns: Columns, slot: nat, entry: Entry, metadata: Metadata)
    returns (columns': Columns)
    requires Mirrors(columns, slots) && FieldsAreColumns(columns, metadata) && slot <= |slots|
    requires WellTyped(entry.row, metadata)
    ensures columns'.Keys == columns.Keys && Mirrors(columns', SlotSet(slots, slot, entry))
  {
    columns' := columns;
    for index := 0 to |metadata.fieldOrder|
      invariant columns'.Keys == columns.Keys
      invariant forall i | index <= i < |metadata.fieldOrder| ::
        columns'[metadata.fieldOrder[i]] == columns[metadata.fieldOrder[i]]
      invariant forall i | 0 <= i < index ::
        columns'[metadata.fieldOrder[i]] ==
        ColumnSet(columns[metadata.fieldOrder[i]], slot, FieldValue(entry.row, metadata.fieldOrder[i]))
    {
      var field := metadata.fieldOrder[index];
      assert field in Elements(metadata.fieldOrder);
      var value := ColumnEntry(metadata.columnKinds[field], FieldValue(entry.row, field));
      columns' := columns'[field := ColumnSet(columns'[field], slot, value)];
    }
    WrittenColumnsMirror(slots, columns, columns', slot, entry, metadata);
  }

  lemma WrittenColumnsMirror(slots: seq<Entry>, columns: Columns, columns': Columns, slot: nat, entry: Entry,
                             metadata: Metadata)
    requires Mirrors(columns, slots) && FieldsAreColumns(columns, metadata) && slot <= |slots|
    requires columns'.Keys == columns.Keys
    requires forall i | 0 <= i < |metadata.fieldOrder| ::
      metadata.fieldOrder[i] in columns
      && columns'[metadata.fieldOrder[i]] ==
         ColumnSet(columns[metadata.fieldOrder[i]], slot, FieldValue(entry.row, metadata.fieldOrder[i]))
    ensures Mirrors(columns', SlotSet(slots, slot, entry))
  {
    forall f | f in columns'
      ensures columns'[f] == ColumnSet(columns[f], slot, FieldValue(entry.row, f))
    {
      assert f in Elements(metadata.fieldOrder);
    }
  }

  // ----- Index upkeep -----

  /** Whether a change of these fields can move slots within the index. */
  predicate IsAffected(order: OrderColumn, changedFields: Option<set<string>>) {
    changedFields.None? || order.field in changedFields.value
  }

  type SlotIndexes = map<OrderColumn, seq<nat>>

  /** Affected indexes list `affected` slots, the others `others`. */
  ghost predicate IndexesListOr(indexes: SlotIndexes, slots: seq<Entry>, columns: Columns,
                                changedFields: Option<set<string>>, affected: set<nat>, others: set<nat>)
  {
    forall o | o in indexes ::
      o.field in columns && IndexLists(indexes[o], slots, o, if IsAffected(o, changedFields) then affected else others)
  }

  /** Takes a slot out of the affected indexes, or puts it into them. */
  method UpdateOrderedIndexes(indexes: SlotIndexes, slots: seq<Entry>, columns: Columns, slot: nat, adding: bool,
                              changedFields: Option<set<string>>, ghost live: set<nat>, ghost others: set<nat>)
    returns (result: SlotIndexes)
    requires Mirrors(columns, slots) && Live(slots, if adding then live + {slot} else live)
    requires (adding ==> slot !in live)
    requires IndexesListOr(indexes, slots, columns, changedFields, live, others)
    ensures IndexesListOr(result, slots, columns, changedFields,
                          if adding then live + {slot} else live - {slot}, others)
  {
    result := indexes;
    var orders := indexes.Keys;
    ghost var live' := if adding then live + {slot} else live - {slot};
    while orders != {}
      invariant orders <= result.Keys && result.Keys == indexes.Keys
      invariant forall o | o in orders :: result[o] == indexes[o]
      invariant forall o | o in result && o !in orders ::
        IndexLists(result[o], slots, o, if IsAffected(o, changedFields) then live' else others)
      decreases |orders|
    {
      var order :| order in orders;
      orders := orders - {order};
      if IsAffected(order, changedFields) {
        var updated := UpdateOrderedIndex(indexes[order], slots, columns, order, slot, adding, live);
        result := result[order := updated];
      }
    }
  }

  method UpdateOrderedIndex(index: seq<nat>, slots: seq<Entry>, columns: Columns, order: OrderColumn, slot: nat,
                            adding: bool, ghost live: set<nat>)
    returns (result: seq<nat>)
    requires Mirrors(columns, slots) && order.field in columns && IndexLists(index, slots, order, live)
    requires Live(slots, if adding then live + {slot} else live) && (adding ==> slot !in live)
    ensures IndexLists(result, slots, order, if adding then live + {slot} else live - {slot})
  {
    if adding {
      result := InsertSlotIntoIndex(index, slots, columns, order, slot, live);
    } else {
      result := RemoveSlotFromIndex(index, slot, slots, order, live);
    }
  }

  /** Rewriting a slot leaves an index valid that does not list it or whose field did not change. */
  lemma IndexesSurviveWrite(indexes: SlotIndexes, slots: seq<Entry>, columns: Columns, slots': seq<Entry>,
                            columns': Columns, changedFields: Option<set<string>>, affected: set<nat>, others: set<nat>)
    requires IndexesListOr(indexes, slots, columns, changedFields, affected, others) && columns'.Keys == columns.Keys
    requires forall i | i in affected :: i < |slots| && i < |slots'| && slots'[i] == slots[i]
    requires forall i | i in others :: i < |slots| && i < |slots'| && slots'[i].key == slots[i].key
    requires forall i, f | i in others && changedFields.Some? && f !in changedFields.value ::
      FieldValue(slots'[i].row, f) == FieldValue(slots[i].row, f)
    ensures IndexesListOr(indexes, slots', columns', changedFields, affected, others)
  {
    forall o | o in indexes
      ensures IndexLists(indexes[o], slots', o, if IsAffected(o, changedFields) then affected else others)
    {
      IndexSurvives(indexes[o], slots, slots', o, if IsAffected(o, changedFields) then affected else others);
    }
  }

  /** Buckets only look at the columns of the live slots. */
  lemma BucketsSurvive(indexes: ScalarPredicateIndexes, columns: Columns, columns': Columns, live: set<nat>)
    requires BucketsExact(indexes, columns, live) && columns'.Keys == columns.Keys
    requires forall f, s | f in columns && s in live ::
      ColumnScalarEqualityKey(columns'[f], s) == ColumnScalarEqualityKey(columns[f], s)
    ensures BucketsExact(indexes, columns', live)
  {
    forall f | f in indexes
      ensures FieldRetained(indexes[f], columns', f, live)
    {
      assert FieldRetained(indexes[f], columns, f, live);
    }
  }

  lemma MirroredKeys(columns: Columns, slots: seq<Entry>, columns': Columns, slots': seq<Entry>, live: set<nat>)
    requires Mirrors(columns, slots) && Mirrors(columns', slots') && columns'.Keys == columns.Keys
    requires forall s | s in live :: s < |slots| && s < |slots'| && slots'[s] == slots[s]
    ensures forall f, s | f in columns && s in live ::
      ColumnScalarEqualityKey(columns'[f], s) == ColumnScalarEqualityKey(columns[f], s)
  {
  }

  // ----- Replacing, appending and deleting a slot -----

  /** The fields a patch changed; `None` when it cannot tell. */
  function ChangedFieldsFromRows(previous: Row, next: Row, fields: set<string>): (changed: Option<set<string>>)
    ensures changed.Some? ==> changed.value != {} && forall f :: f in changed.value <==>
      f in fields && FieldValue(previous, f) != FieldValue(next, f)
  {
    var changed := set f | f in fields && FieldValue(previous, f) != FieldValue(next, f);
    if changed == {} then None else Some(changed)
  }

  /** Replaces the row of a slot and keeps everything derived from it. */
  method ReplaceSlot(st: ScanState, slot: nat, row: Row, changedFields: Option<set<string>>, metadata: Metadata)
    returns (st': ScanState)
    requires ValidState(st) && FieldsAreColumns(st.columns, metadata) && WellTyped(row, metadata) && slot < |st.slots|
    requires changedFields.Some? ==> forall f | f !in changedFields.value ::
      FieldValue(row, f) == FieldValue(st.slots[slot].row, f)
    ensures ValidState(st') && st'.columns.Keys == st.columns.Keys
    ensures st'.slots == st.slots[slot := Entry(st.slots[slot].key, row)]
  {
    ghost var all := AllSlots(st.slots);
    var scalar := UpdateScalarPredicateIndexes(st.scalarPredicateIndexes, st.columns, slot, false, all);
    var ordered :=
      UpdateOrderedIndexes(st.orderedSlotIndexes, st.slots, st.columns, slot, false, changedFields, all, all);
    var entry := Entry(st.slots[slot].key, row);
    var slots := st.slots[slot := entry];
    var columns := WriteColumns(st.slots, st.columns, slot, entry, metadata);
    MirroredKeys(st.columns, st.slots, columns, slots, all - {slot});
    BucketsSurvive(scalar, st.columns, columns, all - {slot});
    IndexesSurviveWrite(ordered, st.slots, st.columns, slots, columns, changedFields, all - {slot}, all);
    assert all - {slot} + {slot} == all;
    scalar := UpdateScalarPredicateIndexes(scalar, columns, slot, true, all - {slot});
    ordered := UpdateOrderedIndexes(ordered, slots, columns, slot, true, changedFields, all - {slot}, all);
    st' := ScanState(slots, columns, ordered, scalar);
  }

  /** Appends a row in a new slot. */
  method AppendSlot(st: ScanState, entry: Entry, metadata: Metadata) returns (st': ScanState)
    requires ValidState(st) && FieldsAreColumns(st.columns, metadata) && WellTyped(entry.row, metadata)
    requires forall i | 0 <= i < |st.slots| :: st.slots[i].key != entry.key
    ensures ValidState(st') && st'.columns.Keys == st.columns.Keys && st'.slots == st.slots + [entry]
  {
    ghost var all := AllSlots(st.slots);
    var slot, slots := |st.slots|, st.slots + [entry];
    var columns := WriteColumns(st.slots, st.columns, slot, entry, metadata);
    MirroredKeys(st.columns, st.slots, columns, slots, all);
    BucketsSurvive(st.scalarPredicateIndexes, st.columns, columns, all);
    IndexesSurviveWrite(st.orderedSlotIndexes, st.slots, st.columns, slots, columns, None, all, all);
    assert AllSlots(slots) == all + {slot};
    LiveMeansDistinct(slots);
    var scalar := UpdateScalarPredicateIndexes(st.scalarPredicateIndexes, columns, slot, true, all);
    var ordered := UpdateOrderedIndexes(st.orderedSlotIndexes, slots, columns, slot, true, None, all, all);
    st' := ScanState(slots, columns, ordered, scalar);
  }

  function CopySlot(columns: Columns, target: nat, source: nat): Columns
    requires forall f | f in columns :: target < |columns[f]| && source < |columns[f]|
  {
    map f | f in columns :: columns[f][target := columns[f][source]]
  }

  function PopColumns(columns: Columns): Columns
    requires forall f | f in columns :: columns[f] != []
  {
    map f | f in columns :: columns[f][..|columns[f]| - 1]
  }

  /** The slots after a deletion: the last entry fills the gap. */
  function SwapRemoved(slots: seq<Entry>, slot: nat): seq<Entry>
    requires slot < |slots|
  {
    slots[slot := slots[|slots| - 1]][..|slots| - 1]
  }

  /** Moves the last row into the slot to be freed and keeps everything derived from the rows that stay. */
  method MoveLastSlot(st: ScanState, slot: nat, ghost live: set<nat>) returns (st': ScanState)
    requires Mirrors(st.columns, st.slots) && slot < |st.slots| - 1
    requires Live(st.slots, AllSlots(st.slots)) && live == AllSlots(st.slots) - {slot}
    requires IndexesList(st.orderedSlotIndexes, st.slots, st.columns, live)
    requires BucketsExact(st.scalarPredicateIndexes, st.columns, live)
    ensures st'.slots == st.slots[slot := st.slots[|st.slots| - 1]] && st'.columns.Keys == st.columns.Keys
    ensures Mirrors(st'.columns, st'.slots)
    ensures IndexesList(st'.orderedSlotIndexes, st'.slots, st'.columns, AllSlots(st.slots) - {|st.slots| - 1})
    ensures BucketsExact(st'.scalarPredicateIndexes, st'.columns, AllSlots(st.slots) - {|st.slots| - 1})
  {
    var lastSlot := |st.slots| - 1;
    ghost var rest := live - {lastSlot};
    var scalar := UpdateScalarPredicateIndexes(st.scalarPredicateIndexes, st.columns, lastSlot, false, live);
    var ordered := UpdateOrderedIndexes(st.orderedSlotIndexes, st.slots, st.columns, lastSlot, false, None, live, live);
    var slots := st.slots[slot := st.slots[lastSlot]];
    var columns := CopySlot(st.columns, slot, lastSlot);
    MirroredKeys(st.columns, st.slots, columns, slots, rest);
    BucketsSurvive(scalar, st.columns, columns, rest);
    IndexesSurviveWrite(ordered, st.slots, st.columns, slots, columns, None, rest, rest);
    scalar := UpdateScalarPredicateIndexes(scalar, columns, slot, true, rest);
    ordered := UpdateOrderedIndexes(ordered, slots, columns, slot, true, None, rest, rest);
    assert rest + {slot} == AllSlots(st.slots) - {lastSlot};
    st' := ScanState(slots, columns, ordered, scalar);
  }

  /** Deletes a slot by moving the last one into it. */
  method DeleteSlot(st: ScanState, slot: nat) returns (st': ScanState)
    requires ValidState(st) && slot < |st.slots|
    ensures ValidState(st') && st'.columns.Keys == st.columns.Keys && st'.slots == SwapRemoved(st.slots, slot)
  {
    ghost var all := AllSlots(st.slots);
    var lastSlot := |st.slots| - 1;
    var scalar := UpdateScalarPredicateIndexes(st.scalarPredicateIndexes, st.columns, slot, false, all);
    var ordered := UpdateOrderedIndexes(st.orderedSlotIndexes, st.slots, st.columns, slot, false, None, all, all);
    var moved := ScanState(st.slots, st.columns, ordered, scalar);
    if slot != lastSlot {
      moved := MoveLastSlot(moved, slot, all - {slot});
    }
    st' := PopSlot(moved, st.slots, slot);
  }

  method PopSlot(st: ScanState, ghost before: seq<Entry>, ghost slot: nat) returns (st': ScanState)
    requires slot < |before| && Live(before, AllSlots(before)) && st.slots == before[slot := before[|before| - 1]]
    requires Mirrors(st.columns, st.slots)
    requires IndexesList(st.orderedSlotIndexes, st.slots, st.columns, AllSlots(before) - {|before| - 1})
    requires BucketsExact(st.scalarPredicateIndexes, st.columns, AllSlots(before) - {|before| - 1})
    ensures ValidState(st') && st'.columns.Keys == st.columns.Keys && st'.slots == SwapRemoved(before, slot)
  {
    var slots, columns := st.slots[..|st.slots| - 1], PopColumns(st.columns);
    ghost var live := AllSlots(before) - {|before| - 1};
    assert live == AllSlots(slots);
    MirroredKeys(st.columns, st.slots, columns, slots, live);
    BucketsSurvive(st.scalarPredicateIndexes, st.columns, columns, live);
    IndexesSurviveWrite(st.orderedSlotIndexes, st.slots, st.columns, slots, columns, None, live, live);
    LiveMeansDistinct(before);
    LiveMeansDistinct(slots);
    st' := ScanState(slots, columns, st.orderedSlotIndexes, st.scalarPredicateIndexes);
  }

  // ----- What the upkeep means for the stored table -----

  /** Every key has its slot, and every slot its key. */
  ghost predicate SlotOfEveryKey(keyToSlot: map<string, nat>, slots: seq<Entry>) {
    && (forall i | 0 <= i < |slots| :: slots[i].key in keyToSlot && keyToSlot[slots[i].key] == i)
    && (forall k | k in keyToSlot :: keyToSlot[k] < |slots| && slots[keyToSlot[k]].key == k)
  }

  function TableFrom(keyToSlot: map<string, nat>, slots: seq<Entry>): Table
    requires SlotOfEveryKey(keyToSlot, slots)
  {
    map k | k in keyToSlot :: slots[keyToSlot[k]].row
  }

  /** The row in a slot is the row stored under its key. */
  lemma StoredAt(keyToSlot: map<string, nat>, slots: seq<Entry>, slot: nat)
    requires SlotOfEveryKey(keyToSlot, slots) && slot < |slots|
    ensures Lookup(TableFrom(keyToSlot, slots), slots[slot].key) == Some(slots[slot].row)
    ensures TableFrom(keyToSlot, slots)[slots[slot].key := slots[slot].row] == TableFrom(keyToSlot, slots)
  {
  }

  lemma SlotsHoldTheTable(keyToSlot: map<string, nat>, slots: seq<Entry>)
    requires SlotOfEveryKey(keyToSlot, slots)
    ensures DistinctKeys(slots) && TableOf(slots) == TableFrom(keyToSlot, slots)
  {
    forall k
      ensures k in TableOf(slots) <==> k in keyToSlot
    {
      if k in keyToSlot {
        assert slots[keyToSlot[k]].key == k;
      }
    }
  }

  lemma TableAfterReplace(keyToSlot: map<string, nat>, slots: seq<Entry>, slot: nat, row: Row)
    requires SlotOfEveryKey(keyToSlot, slots) && slot < |slots|
    ensures
      var slots' := slots[slot := Entry(slots[slot].key, row)];
      && SlotOfEveryKey(keyToSlot, slots')
      && TableFrom(keyToSlot, slots') == TableFrom(keyToSlot, slots)[slots[slot].key := row]
  {
  }

  lemma TableAfterAppend(keyToSlot: map<string, nat>, slots: seq<Entry>, entry: Entry)
    requires SlotOfEveryKey(keyToSlot, slots) && entry.key !in keyToSlot
    ensures
      var keyToSlot' := keyToSlot[entry.key := |slots|];
      && SlotOfEveryKey(keyToSlot', slots + [entry])
      && TableFrom(keyToSlot', slots + [entry]) == TableFrom(keyToSlot, slots)[entry.key := entry.row]
  {
  }

  lemma KeysAfterSwapRemove(keyToSlot: map<string, nat>, slots: seq<Entry>, slot: nat)
    requires SlotOfEveryKey(keyToSlot, slots) && slot < |slots|
    ensures SlotOfEveryKey(MovedKey(keyToSlot, slots, slot), SwapRemoved(slots, slot))
    ensures MovedKey(keyToSlot, slots, slot).Keys == keyToSlot.Keys - {slots[slot].key}
    ensures forall k | k in MovedKey(keyToSlot, slots, slot) ::
              SwapRemoved(slots, slot)[MovedKey(keyToSlot, slots, slot)[k]] == slots[keyToSlot[k]]
  {
    var last, keyToSlot', slots' := |slots| - 1, MovedKey(keyToSlot, slots, slot), SwapRemoved(slots, slot);
    assert forall i | 0 <= i < last :: slots'[i] == if i == slot then slots[last] else slots[i];
    assert slots[last].key in keyToSlot && slots[slot].key in keyToSlot;
    forall k | k in keyToSlot'
      ensures k in keyToSlot && keyToSlot'[k] < |slots'| && slots'[keyToSlot'[k]] == slots[keyToSlot[k]]
    {
      assert slots[keyToSlot[k]].key == k;
    }
  }

  lemma TableAfterSwapRemove(keyToSlot: map<string, nat>, slots: seq<Entry>, slot: nat)
    requires SlotOfEveryKey(keyToSlot, slots) && slot < |slots|
    ensures
      var keyToSlot' := MovedKey(keyToSlot, slots, slot);
      && SlotOfEveryKey(keyToSlot', SwapRemoved(slots, slot))
      && TableFrom(keyToSlot', SwapRemoved(slots, slot)) == TableFrom(keyToSlot, slots) - {slots[slot].key}
  {
    hide MovedKey, SwapRemoved, SlotOfEveryKey;
    KeysAfterSwapRemove(keyToSlot, slots, slot);
  }

  function MovedKey(keyToSlot: map<string, nat>, slots: seq<Entry>, slot: nat): map<string, nat>
    requires slot < |slots|
  {
    var rest := keyToSlot - {slots[slot].key};
    if slot != |slots| - 1 then rest[slots[|slots| - 1].key := slot] else rest
  }

  // ----- The store -----

  datatype RowSource = FromRow | FromPatch

  /** A decoded row, given whole or as the result of a patch. */
  datatype PreparedTopicRow = PreparedTopicRow(key: string, row: Row, source: RowSource)

  /** The table after storing prepared rows one by one. */
  ghost function PutAll(rows: Table, prepared: seq<PreparedTopicRow>): Table {
    if prepared == [] then rows
    else
      var last := prepared[|prepared| - 1];
      PutAll(rows, prepared[..|prepared| - 1])[last.key := last.row]
  }

  /** Storing the `i`-th row of a batch changes what is stored under its key by then. */
  ghost predicate PutChanges(rows: Table, prepared: seq<PreparedTopicRow>, i: nat) {
    i < |prepared| && Lookup(PutAll(rows, prepared[..i]), prepared[i].key) != Some(prepared[i].row)
  }

  /** Where a batch changes rows. */
  ghost function ChangesAt(rows: Table, prepared: seq<PreparedTopicRow>): set<nat> {
    set i: nat | i < |prepared| && PutChanges(rows, prepared, i)
  }

  lemma ChangesAtMore(rows: Table, prepared: seq<PreparedTopicRow>, i: nat)
    requires i < |prepared|
    ensures |ChangesAt(rows, prepared[..i + 1])| ==
      |ChangesAt(rows, prepared[..i])| + if PutChanges(rows, prepared, i) then 1 else 0
  {
    hide PutAll, Lookup;
    var few, more := prepared[..i], prepared[..i + 1];
    forall j | 0 <= j <= i
      ensures PutChanges(rows, more, j) <==> PutChanges(rows, prepared, j)
      ensures j < i ==> (PutChanges(rows, few, j) <==> PutChanges(rows, prepared, j))
    {
      assert more[..j] == prepared[..j] && (j < i ==> few[..j] == prepared[..j]);
    }
    assert ChangesAt(rows, more) == ChangesAt(rows, few) + if PutChanges(rows, prepared, i) then {i} else {};
  }

  /** Keys that no row is stored under are left alone. */
  lemma {:induction false} PutAllLeavesOthers(rows: Table, prepared: seq<PreparedTopicRow>, k: string)
    requires forall p | p in prepared :: p.key != k
    ensures Lookup(PutAll(rows, prepared), k) == Lookup(rows, k)
  {
    if prepared != [] {
      PutAllLeavesOthers(rows, prepared[..|prepared| - 1], k);
      assert prepared[|prepared| - 1] in prepared;
    }
  }

  /** The last row stored under a key stays. */
  lemma {:induction false} PutAllKeepsTheLast(rows: Table, prepared: seq<PreparedTopicRow>, i: nat)
    requires i < |prepared| && forall j | i < j < |prepared| :: prepared[j].key != prepared[i].key
    ensures Lookup(PutAll(rows, prepared), prepared[i].key) == Some(prepared[i].row)
    decreases |prepared|
  {
    var front := prepared[..|prepared| - 1];
    if i < |front| {
      PutAllKeepsTheLast(rows, front, i);
      assert front[i] == prepared[i];
    }
  }

  lemma NothingPut(rows: Table)
    ensures PutAll(rows, []) == rows && ChangesAt(rows, []) == {}
  {
  }

  lemma PutOneMore(rows: Table, prepared: seq<PreparedTopicRow>, i: nat)
    requires i < |prepared|
    ensures prepared[i] in prepared
    ensures PutAll(rows, prepared[..i + 1]) == PutAll(rows, prepared[..i])[prepared[i].key := prepared[i].row]
  {
    assert prepared[..i + 1][..i] == prepared[..i];
  }

  /** The changed fields of a replacement: a whole row does not tell them, a patch tells exactly them. */
  function ReplacementChangedFields(prepared: PreparedTopicRow, previous: Row,
                                    metadata: Metadata): (changed: Option<set<string>>)
    requires WellTyped(previous, metadata) && WellTyped(prepared.row, metadata)
    ensures changed.Some? ==>
      forall f :: f in changed.value <==> FieldValue(previous, f) != FieldValue(prepared.row, f)
  {
    if prepared.source == FromRow then None
    else ChangedFieldsFromRows(previous, prepared.row, metadata.columnKinds.Keys)
  }

  class TopicRowStorage {
    const metadata: Metadata
    const rowChangeJournal: TopicRowChangeJournal
    var slots: seq<Entry>
    var keyToSlot: map<string, nat>
    var columns: Columns
    var orderedSlotIndexes: SlotIndexes
    var scalarPredicateIndexes: ScalarPredicateIndexes
    var versionValue: nat

    /** The schema's fields, one column each. */
    function Fields(): set<string> {
      metadata.columnKinds.Keys
    }

    function State(): ScanState
      reads this
    {
      ScanState(slots, columns, orderedSlotIndexes, scalarPredicateIndexes)
    }

    /** Keys and slots are in bijection, everything derived agrees with the rows, and the journal knows the
        table as it is and as it was at every version. */
    ghost predicate Valid()
      reads this, rowChangeJournal
    {
      && rowChangeJournal.Valid()
      && SlotOfEveryKey(keyToSlot, slots) && DerivedStateAgrees()
      && rowChangeJournal.live == Stored() && versionValue == |rowChangeJournal.history| - 1
    }

    ghost predicate DerivedStateAgrees()
      reads this
    {
      && ValidState(State()) && FieldsAreColumns(columns, metadata)
      && forall e | e in slots :: WellTyped(e.row, metadata)
    }

    function Stored(): Table
      requires SlotOfEveryKey(keyToSlot, slots)
      reads this
    {
      TableFrom(keyToSlot, slots)
    }

    constructor (metadata: Metadata, maxEntries: Option<int>, maxVersions: Option<int>)
      requires metadata.columnKinds.Keys == Elements(metadata.fieldOrder) && NoDuplicates(metadata.fieldOrder)
      ensures Valid() && Stored() == map[] && versionValue == 0
      ensures rowChangeJournal.Ready() && rowChangeJournal.Settled() && rowChangeJournal.refs == 0
      ensures fresh(rowChangeJournal)
    {
      this.metadata := metadata;
      rowChangeJournal := new TopicRowChangeJournal(maxEntries, maxVersions);
      slots, keyToSlot, versionValue := [], map[], 0;
      columns := map f | f in metadata.columnKinds :: [];
      orderedSlotIndexes, scalarPredicateIndexes := map[], map[];
    }

    /** Tells the journal about one change. */
    method RecordRowChange(change: Change)
      requires rowChangeJournal.Valid() && rowChangeJournal.Ready() && versionValue == |rowChangeJournal.history| - 1
      requires Truthful(rowChangeJournal.live, change)
      modifies rowChangeJournal
      ensures rowChangeJournal.Valid() && rowChangeJournal.Ready()
      ensures rowChangeJournal.history == old(rowChangeJournal.history)
      ensures rowChangeJournal.refs == old(rowChangeJournal.refs)
      ensures rowChangeJournal.live == ApplyChange(old(rowChangeJournal.live), change)
    {
      rowChangeJournal.Record(change, versionValue);
    }

    method Adopt(st: ScanState)
      modifies this`slots, this`columns, this`orderedSlotIndexes, this`scalarPredicateIndexes
      ensures State() == st
    {
      slots, columns := st.slots, st.columns;
      orderedSlotIndexes, scalarPredicateIndexes := st.orderedSlotIndexes, st.scalarPredicateIndexes;
    }

    /** Replaces the row of a slot and keeps everything derived from it. */
    method WriteReplacement(slot: nat, row: Row, changedFields: Option<set<string>>)
      requires SlotOfEveryKey(keyToSlot, slots) && DerivedStateAgrees() && WellTyped(row, metadata) && slot < |slots|
      requires changedFields.Some? ==> forall f | f !in changedFields.value ::
        FieldValue(row, f) == FieldValue(slots[slot].row, f)
      modifies this`slots, this`columns, this`orderedSlotIndexes, this`scalarPredicateIndexes
      ensures SlotOfEveryKey(keyToSlot, slots) && DerivedStateAgrees()
      ensures Stored() == old(Stored())[old(slots[slot].key) := row]
    {
      var st := ReplaceSlot(State(), slot, row, changedFields, metadata);
      TableAfterReplace(keyToSlot, slots, slot, row);
      Adopt(st);
    }

    method AppendPrepared(entry: Entry)
      requires SlotOfEveryKey(keyToSlot, slots) && DerivedStateAgrees() && WellTyped(entry.row, metadata)
      requires entry.key !in keyToSlot
      modifies this`slots, this`columns, this`orderedSlotIndexes, this`scalarPredicateIndexes, this`keyToSlot
      ensures SlotOfEveryKey(keyToSlot, slots) && DerivedStateAgrees()
      ensures Stored() == old(Stored())[entry.key := entry.row]
    {
      var slot := |slots|;
      var st := AppendSlot(State(), entry, metadata);
      TableAfterAppend(keyToSlot, slots, entry);
      keyToSlot := keyToSlot[entry.key := slot];
      Adopt(st);
    }

    method RemoveKey(key: string)
      requires SlotOfEveryKey(keyToSlot, slots) && DerivedStateAgrees() && key in keyToSlot
      modifies this`slots, this`columns, this`orderedSlotIndexes, this`scalarPredicateIndexes, this`keyToSlot
      ensures SlotOfEveryKey(keyToSlot, slots) && DerivedStateAgrees()
      ensures Stored() == old(Stored()) - {key}
    {
      var slot := keyToSlot[key];
      var st := DeleteSlot(State(), slot);
      TableAfterSwapRemove(keyToSlot, slots, slot);
      keyToSlot := MovedKey(keyToSlot, slots, slot);
      Adopt(st);
    }

    /** Stores one prepared row: replaces the row under its key, unless it is the same, or appends it. */
    method SetPrepared(prepared: PreparedTopicRow) returns (rowsChanged: nat)
      requires Valid() && rowChangeJournal.Ready() && WellTyped(prepared.row, metadata)
      modifies this, rowChangeJournal
      ensures Valid() && rowChangeJournal.Ready()
      ensures Stored() == old(Stored())[prepared.key := prepared.row]
      ensures rowsChanged == if Lookup(old(Stored()), prepared.key) == Some(prepared.row) then 0 else 1
      ensures rowsChanged == 0 ==>
        Stored() == old(Stored()) && (old(rowChangeJournal.Settled()) ==> rowChangeJournal.Settled())
      ensures versionValue == old(versionValue) && rowChangeJournal.history == old(rowChangeJournal.history)
      ensures rowChangeJournal.refs == old(rowChangeJournal.refs)
    {
      if prepared.key !in keyToSlot {
        AppendPrepared(Entry(prepared.key, prepared.row));
        RecordRowChange(Change(prepared.key, None, Some(prepared.row), None));
        return 1;
      }
      rowsChanged := ReplacePrepared(prepared, keyToSlot[prepared.key]);
    }

    lemma RowIsWellTyped(slot: nat)
      requires DerivedStateAgrees() && slot < |slots|
      ensures WellTyped(slots[slot].row, metadata)
    {
      assert slots[slot] in slots;
    }

    method ReplacePrepared(prepared: PreparedTopicRow, slot: nat) returns (rowsChanged: nat)
      requires Valid() && rowChangeJournal.Ready() && WellTyped(prepared.row, metadata)
      requires slot < |slots| && slots[slot].key == prepared.key
      modifies this, rowChangeJournal
      ensures Valid() && rowChangeJournal.Ready()
      ensures Stored() == old(Stored())[prepared.key := prepared.row]
      ensures rowsChanged == if Lookup(old(Stored()), prepared.key) == Some(prepared.row) then 0 else 1
      ensures rowsChanged == 0 ==>
        Stored() == old(Stored()) && (old(rowChangeJournal.Settled()) ==> rowChangeJournal.Settled())
      ensures versionValue == old(versionValue) && rowChangeJournal.history == old(rowChangeJournal.history)
      ensures rowChangeJournal.refs == old(rowChangeJournal.refs)
    {
      hide SlotOfEveryKey, TableFrom, DerivedStateAgrees, WellTyped, TopicRowChangeJournal.Valid;
      var previous := slots[slot].row;
      StoredAt(keyToSlot, slots, slot);
      RowIsWellTyped(slot);
      if previous == prepared.row {
        return 0;
      }
      var changedFields := ReplacementChangedFields(prepared, previous, metadata);
      WriteReplacement(slot, prepared.row, changedFields);
      RecordRowChange(Change(prepared.key, Some(previous), Some(prepared.row), changedFields));
      return 1;
    }

    /** Deletes the row under a key, if there is one. */
    method Delete(key: string) returns (rowsChanged: nat)
      requires Valid() && rowChangeJournal.Ready()
      modifies this, rowChangeJournal
      ensures Valid() && rowChangeJournal.Ready()
      ensures Stored() == old(Stored()) - {key}
      ensures rowsChanged == if key in old(Stored()) then 1 else 0
      ensures rowsChanged == 0 ==> old(rowChangeJournal.Settled()) ==> rowChangeJournal.Settled()
      ensures versionValue == old(versionValue) && rowChangeJournal.history == old(rowChangeJournal.history)
      ensures rowChangeJournal.refs == old(rowChangeJournal.refs)
    {
      hide TopicRowStorage.DerivedStateAgrees, TopicRowChangeJournal.Valid;
      if key !in keyToSlot {
        return 0;
      }
      var previous := slots[keyToSlot[key]].row;
      RemoveKey(key);
      RecordRowChange(Change(key, Some(previous), None, None));
      return 1;
    }

    /** Stores prepared rows in order. A batch of several rows drops the ordered indexes first; they are
        rebuilt when a scan asks for them. */
    method SetPreparedMany(prepared: seq<PreparedTopicRow>) returns (rowsChanged: nat)
      requires Valid() && rowChangeJournal.Ready() && forall p | p in prepared :: WellTyped(p.row, metadata)
      modifies this, rowChangeJournal
      ensures Valid() && rowChangeJournal.Ready()
      ensures Stored() == PutAll(old(Stored()), prepared)
      ensures rowsChanged == |ChangesAt(old(Stored()), prepared)|
      ensures rowsChanged == 0 ==>
        Stored() == old(Stored()) && (old(rowChangeJournal.Settled()) ==> rowChangeJournal.Settled())
      ensures versionValue == old(versionValue) && rowChangeJournal.history == old(rowChangeJournal.history)
      ensures rowChangeJournal.refs == old(rowChangeJournal.refs)
    {
      hide TopicRowStorage.DerivedStateAgrees, TopicRowChangeJournal.Valid, SlotOfEveryKey, TopicRowChangeJournal.Ready,
          PutAll, ChangesAt;
      NothingPut(Stored());
      if |prepared| > 1 && orderedSlotIndexes != map[] {
        DropOrderedIndexes();
      }
      rowsChanged := 0;
      ghost var start := Stored();
      for i := 0 to |prepared|
        invariant Valid() && rowChangeJournal.Ready()
        invariant Stored() == PutAll(start, prepared[..i])
        invariant rowsChanged == |ChangesAt(start, prepared[..i])|
        invariant rowsChanged == 0 ==>
          Stored() == start && (old(rowChangeJournal.Settled()) ==> rowChangeJournal.Settled())
        invariant versionValue == old(versionValue) && rowChangeJournal.history == old(rowChangeJournal.history)
        invariant rowChangeJournal.refs == old(rowChangeJournal.refs)
      {
        PutOneMore(start, prepared, i);
        ChangesAtMore(start, prepared, i);
        var changed := SetPrepared(prepared[i]);
        rowsChanged := rowsChanged + changed;
      }
      assert prepared[..|prepared|] == prepared;
    }

    method DropOrderedIndexes()
      requires Valid()
      modifies this`orderedSlotIndexes
      ensures Valid() && Stored() == old(Stored()) && orderedSlotIndexes == map[]
    {
      orderedSlotIndexes := map[];
    }

    /** Ends a mutation: the table as it is now becomes the next version. */
    method AdvanceVersion() returns (version: nat)
      requires Valid() && rowChangeJournal.Ready()
      modifies this`versionValue, rowChangeJournal
      ensures Valid() && rowChangeJournal.Ready() && rowChangeJournal.Settled()
      ensures version == versionValue == old(versionValue) + 1
      ensures rowChangeJournal.history == old(rowChangeJournal.history) + [Stored()]
      ensures rowChangeJournal.refs == old(rowChangeJournal.refs)
    {
      versionValue := versionValue + 1;
      rowChangeJournal.Commit(versionValue);
      return versionValue;
    }

    /** Empties the store and starts again at version 0. */
    method Clear()
      requires Valid() && rowChangeJournal.Settled()
      modifies this, rowChangeJournal
      ensures Valid() && rowChangeJournal.Settled()
      ensures Stored() == map[] && versionValue == 0 && rowChangeJournal.history == [map[]]
      ensures rowChangeJournal.refs == old(rowChangeJournal.refs)
    {
      ClearRows();
      ResetJournal();
      versionValue := 0;
    }

    method ClearRows()
      requires FieldsAreColumns(columns, metadata)
      modifies this`slots, this`keyToSlot, this`columns, this`orderedSlotIndexes, this`scalarPredicateIndexes
      ensures SlotOfEveryKey(keyToSlot, slots) && DerivedStateAgrees() && Stored() == map[]
    {
      slots, keyToSlot := [], map[];
      orderedSlotIndexes, scalarPredicateIndexes := map[], map[];
      columns := map f | f in columns :: [];
    }

    method ResetJournal()
      requires rowChangeJournal.Valid() && rowChangeJournal.Settled()
      modifies rowChangeJournal
      ensures rowChangeJournal.Valid() && rowChangeJournal.Settled()
      ensures rowChangeJournal.history == [map[]] && rowChangeJournal.refs == old(rowChangeJournal.refs)
    {
      rowChangeJournal.Clear(versionValue);
      rowChangeJournal.Restart();
    }

    method ChangesSince(version: int) returns (batches: Option<seq<Batch>>)
      requires Valid()
      ensures batches.Some? <==> rowChangeJournal.Covers(version)
      ensures batches.Some? ==> batches.value == rowChangeJournal.Since(version)
      ensures batches.Some? ==>
        && 0 <= version <= versionValue
        && ReplayBatches(rowChangeJournal.history[version], batches.value) ==
          Some(rowChangeJournal.history[versionValue])
        && Consecutive(batches.value, version) && version + |batches.value| == versionValue
    {
      batches := rowChangeJournal.ChangesSince(version, versionValue);
    }

    method RetainChanges()
      requires Valid() && rowChangeJournal.Settled()
      modifies rowChangeJournal
      ensures Valid() && rowChangeJournal.Settled() && rowChangeJournal.history == old(rowChangeJournal.history)
      ensures rowChangeJournal.refs == old(rowChangeJournal.refs) + 1
      ensures old(rowChangeJournal.Ready()) ==> rowChangeJournal.Ready()
    {
      rowChangeJournal.Retain(versionValue);
    }

    method ReleaseChanges()
      requires Valid() && rowChangeJournal.Settled()
      modifies rowChangeJournal
      ensures Valid() && rowChangeJournal.Settled() && rowChangeJournal.history == old(rowChangeJournal.history)
      ensures rowChangeJournal.refs == if old(rowChangeJournal.refs) > 0 then old(rowChangeJournal.refs) - 1 else 0
      ensures old(rowChangeJournal.Ready()) || rowChangeJournal.refs == 0 ==> rowChangeJournal.Ready()
    {
      rowChangeJournal.Release(versionValue);
    }

    /** The window of a plan on the stored rows. A scan may build indexes; it changes no row. */
    method ScanRawWindow(plan: ScanPlan) returns (window: seq<Entry>, totalRows: nat)
      requires Valid() && ValidPlan(plan, columns)
      modifies this`orderedSlotIndexes, this`scalarPredicateIndexes
      ensures Valid() && Stored() == old(Stored())
      ensures totalRows == |Matching(Stored(), plan.matches)|
      ensures window == Slice(View(Stored(), PlanQuery(plan)), plan.offset, plan.limit)
    {
      SlotsHoldTheTable(keyToSlot, slots);
      var st;
      window, totalRows, st := ScanTopicRawWindow(State(), metadata, plan);
      orderedSlotIndexes, scalarPredicateIndexes := st.orderedSlotIndexes, st.scalarPredicateIndexes;
      assert State() == st;
    }
  }
}
