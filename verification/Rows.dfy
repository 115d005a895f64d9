/** Rows, row changes, queries and the view a query denotes. */
module Rows {
  import opened Values
  import opened Ranking

  datatype Row = Row(fields: map<string, Value>)

  /** A stored row under its key. */
  datatype Entry = Entry(key: string, row: Row)

  type Table = map<string, Row>

  ghost predicate DistinctKeys(entries: seq<Entry>) {
    forall i, j | 0 <= i < j < |entries| :: entries[i].key != entries[j].key
  }

  function KeysOf(window: seq<Entry>): seq<string> {
    seq(|window|, i requires 0 <= i < |window| => window[i].key)
  }

  function RowsOf(window: seq<Entry>): seq<Row> {
    seq(|window|, i requires 0 <= i < |window| => window[i].row)
  }

  /** The table the slots hold. */
  ghost function TableOf(slots: seq<Entry>): (rows: Table)
    requires DistinctKeys(slots)
    ensures forall i | 0 <= i < |slots| :: slots[i].key in rows && rows[slots[i].key] == slots[i].row
    ensures forall k | k in rows :: exists i :: 0 <= i < |slots| && slots[i].key == k
  {
    map i | 0 <= i < |slots| :: slots[i].key := slots[i].row
  }

  function FieldValue(row: Row, field: string): Value {
    if field in row.fields then row.fields[field] else Undefined
  }

  // ----- Row order -----

  datatype Direction = Ascending | Descending

  datatype OrderColumn = OrderColumn(field: string, direction: Direction)

  /** Rows by their order columns, ties broken by key. */
  function CompareRows(left: Entry, right: Entry, orderBy: seq<OrderColumn>): int {
    if orderBy == [] then CompareText(left.key, right.key)
    else
      var comparison :=
        CompareQueryValue(FieldValue(left.row, orderBy[0].field), FieldValue(right.row, orderBy[0].field));
      if comparison != 0 then
        (if orderBy[0].direction.Ascending? then comparison else -comparison)
      else CompareRows(left, right, orderBy[1..])
  }

  /** The laws every query's row comparator obeys: it is a three-way comparison that never leaves two
      different keys undecided. */
  ghost predicate IsRowOrder(compare: (Entry, Entry) -> int) {
    && (forall a, b {:trigger compare(a, b)} :: compare(a, b) < 0 <==> compare(b, a) > 0)
    && (forall a, b {:trigger compare(a, b)} :: compare(a, b) == 0 ==> a.key == b.key)
    && (forall a, b, c {:trigger Chain(a, b, c)} :: compare(a, b) <= 0 && compare(b, c) <= 0 ==> compare(a, c) <= 0)
  }

  lemma RowOrderChains(compare: (Entry, Entry) -> int, a: Entry, b: Entry, c: Entry)
    requires IsRowOrder(compare) && compare(a, b) <= 0 && compare(b, c) <= 0
    ensures compare(a, c) <= 0
    ensures compare(a, b) < 0 || compare(b, c) < 0 ==> compare(a, c) < 0
  {
    assert Chain(a, b, c) && Chain(c, a, b) && Chain(b, c, a);
  }

  lemma {:induction false} CompareRowsLaws(a: Entry, b: Entry, orderBy: seq<OrderColumn>)
    ensures CompareRows(a, b, orderBy) == -CompareRows(b, a, orderBy)
    ensures CompareRows(a, b, orderBy) == 0 ==> a.key == b.key
    decreases |orderBy|
  {
    if orderBy == [] {
      CompareTextLaws(a.key, b.key);
    } else {
      CompareQueryValueLaws(FieldValue(a.row, orderBy[0].field), FieldValue(b.row, orderBy[0].field));
      CompareRowsLaws(a, b, orderBy[1..]);
    }
  }

  lemma {:induction false} CompareRowsTransitive(a: Entry, b: Entry, c: Entry, orderBy: seq<OrderColumn>)
    requires CompareRows(a, b, orderBy) <= 0 && CompareRows(b, c, orderBy) <= 0
    ensures CompareRows(a, c, orderBy) <= 0
    decreases |orderBy|
  {
    if orderBy == [] {
      CompareTextTransitive(a.key, b.key, c.key);
    } else {
      var field := orderBy[0].field;
      var x, y, z := FieldValue(a.row, field), FieldValue(b.row, field), FieldValue(c.row, field);
      CompareQueryValueLaws(x, y);
      CompareQueryValueLaws(y, z);
      CompareQueryValueLaws(x, z);
      if orderBy[0].direction.Ascending? {
        CompareQueryValueTransitive(x, y, z);
      } else {
        CompareQueryValueTransitive(z, y, x);
      }
      if x == y && y == z {
        CompareRowsTransitive(a, b, c, orderBy[1..]);
      }
    }
  }

  /** The comparator compiled from any list of order columns is a row order. */
  lemma CompiledOrderIsRowOrder(orderBy: seq<OrderColumn>)
    ensures IsRowOrder((left, right) => CompareRows(left, right, orderBy))
  {
    forall a, b, c: Entry
      ensures CompareRows(a, b, orderBy) < 0 <==> CompareRows(b, a, orderBy) > 0
      ensures CompareRows(a, b, orderBy) == 0 ==> a.key == b.key
      ensures CompareRows(a, b, orderBy) <= 0 && CompareRows(b, c, orderBy) <= 0 ==> CompareRows(a, c, orderBy) <= 0
    {
      CompareRowsLaws(a, b, orderBy);
      if CompareRows(a, b, orderBy) <= 0 && CompareRows(b, c, orderBy) <= 0 {
        CompareRowsTransitive(a, b, c, orderBy);
      }
    }
  }

  // ----- Queries and views -----

  /** A compiled query: its predicate and its row comparator. */
  datatype Query = Query(matches: Row -> bool, compare: (Entry, Entry) -> int)

  ghost predicate Selected(entry: Entry, rows: Table, matches: Row -> bool) {
    entry.key in rows && rows[entry.key] == entry.row && matches(entry.row)
  }

  /** The stored rows a query selects. */
  ghost function Matching(rows: Table, matches: Row -> bool): (entries: set<Entry>)
    ensures forall x :: x in entries <==> Selected(x, rows, matches)
  {
    set k | k in rows && matches(rows[k]) :: Entry(k, rows[k])
  }

  /** A row order tells the stored rows apart, because a table holds one row per key. */
  lemma MatchingIsTotal(rows: Table, q: Query)
    requires IsRowOrder(q.compare)
    ensures TotalOn(q.compare, Matching(rows, q.matches))
  {
    forall a, b, c | q.compare(a, b) <= 0 && q.compare(b, c) <= 0
      ensures q.compare(a, c) <= 0
    {
      RowOrderChains(q.compare, a, b, c);
    }
  }

  /** What a query means on a table: its matching rows, in order. Everything else in the engine is a
      faster way to know a part of this sequence. */
  ghost function View(rows: Table, q: Query): (v: seq<Entry>)
    requires IsRowOrder(q.compare)
    ensures IsRanking(v, Matching(rows, q.matches), q.compare)
  {
    MatchingIsTotal(rows, q);
    Ranked(Matching(rows, q.matches), q.compare)
  }

  /** An evaluated window as a subscriber sees it. Its keys and rows are those of the window's entries. */
  datatype QueryEvaluation = QueryEvaluation(window: seq<Entry>, totalRows: int, version: nat)

  // ----- Changes -----

  /** One row change, with the rows before and after it. A patch also names the fields it changed. */
  datatype Change = Change(key: string, previous: Option<Row>, next: Option<Row>, changedFields: Option<set<string>>)

  datatype Batch = Batch(changes: seq<Change>, version: nat)

  function Lookup(rows: Table, key: string): Option<Row> {
    if key in rows then Some(rows[key]) else None
  }

  function ApplyChange(rows: Table, change: Change): Table {
    match change.next
    case Some(row) => rows[change.key := row]
    case None => rows - {change.key}
  }

  /** The change tells the truth about the table it is applied to. */
  ghost predicate Truthful(rows: Table, change: Change) {
    && change.previous == Lookup(rows, change.key)
    && (change.changedFields.Some? ==>
          && change.previous.Some? && change.next.Some?
          && forall f :: f in change.changedFields.value <==>
              FieldValue(change.previous.value, f) != FieldValue(change.next.value, f))
  }

  /** Replaying changes one after the other; `None` when one of them does not fit the table. */
  ghost function Replay(rows: Table, changes: seq<Change>): Option<Table> {
    if changes == [] then Some(rows)
    else
      var before := Replay(rows, changes[..|changes| - 1]);
      var last := changes[|changes| - 1];
      if before.Some? && Truthful(before.value, last) then Some(ApplyChange(before.value, last)) else None
  }

  ghost function ReplayBatches(rows: Table, batches: seq<Batch>): Option<Table> {
    if batches == [] then Some(rows)
    else
      var before := ReplayBatches(rows, batches[..|batches| - 1]);
      if before.None? then None else Replay(before.value, batches[|batches| - 1].changes)
  }

  /** One change adds or removes at most its own entry among the matching rows. */
  lemma MatchingAfterChange(rows: Table, change: Change, matches: Row -> bool)
    requires Truthful(rows, change)
    ensures Matching(ApplyChange(rows, change), matches) ==
            Matching(rows, matches) - EntryOf(change.key, change.previous, matches) +
              EntryOf(change.key, change.next, matches)
    ensures |Matching(ApplyChange(rows, change), matches)| ==
            |Matching(rows, matches)| - |EntryOf(change.key, change.previous, matches)|
            + |EntryOf(change.key, change.next, matches)|
  {
    var past, now := Matching(rows, matches), Matching(ApplyChange(rows, change), matches);
    var gone, come := EntryOf(change.key, change.previous, matches), EntryOf(change.key, change.next, matches);
    forall x
      ensures x in now <==> x in past - gone + come
    {
      assert x in now <==> Selected(x, ApplyChange(rows, change), matches);
      assert x in past <==> Selected(x, rows, matches);
    }
    assert gone <= past;
    assert come !! past - gone;
    assert now == past - gone + come;
  }

  ghost function EntryOf(key: string, row: Option<Row>, matches: Row -> bool): (entries: set<Entry>)
    ensures |entries| == if row.Some? && matches(row.value) then 1 else 0
  {
    if row.Some? && matches(row.value) then {Entry(key, row.value)} else {}
  }

  /** A replay that succeeds can be followed one change at a time. */
  lemma {:induction false} ReplayStep(rows: Table, changes: seq<Change>, c: nat)
    requires Replay(rows, changes).Some? && c < |changes|
    ensures Replay(rows, changes[..c]).Some?
    ensures Truthful(Replay(rows, changes[..c]).value, changes[c])
    ensures Replay(rows, changes[..c + 1]) == Some(ApplyChange(Replay(rows, changes[..c]).value, changes[c]))
    decreases |changes|
  {
    var front := changes[..|changes| - 1];
    if c < |front| {
      ReplayStep(rows, front, c);
      assert front[..c] == changes[..c] && front[..c + 1] == changes[..c + 1];
    } else {
      assert changes[..c + 1] == changes;
    }
  }

  lemma {:induction false} ReplayBatchesStep(rows: Table, batches: seq<Batch>, b: nat)
    requires ReplayBatches(rows, batches).Some? && b < |batches|
    ensures ReplayBatches(rows, batches[..b]).Some?
    ensures Replay(ReplayBatches(rows, batches[..b]).value, batches[b].changes).Some?
    ensures ReplayBatches(rows, batches[..b + 1]) == Replay(ReplayBatches(rows, batches[..b]).value, batches[b].changes)
    decreases |batches|
  {
    var front := batches[..|batches| - 1];
    if b < |front| {
      ReplayBatchesStep(rows, front, b);
      assert front[..b] == batches[..b] && front[..b + 1] == batches[..b + 1];
    } else {
      assert batches[..b + 1] == batches;
    }
  }
}
