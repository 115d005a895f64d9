/** The events a live query sends and what a delta means on a window of rows. */
module LiveProtocol {
  import opened Values
  import opened Sequences
  import opened Rows

  datatype DeltaOperation =
    | InsertOp(key: string, row: Row, index: int)
    | UpdateOp(key: string, row: Row, index: int)
    | MoveOp(key: string, fromIndex: int, toIndex: int)
    | RemoveOp(key: string)

  datatype Status = Loading | Ready | Stale | Closed | Failed

  datatype LiveEvent =
    | SnapshotEvent(version: int, keys: seq<string>, rows: seq<Row>, totalRows: int)
    | DeltaEvent(fromVersion: int, toVersion: int, operations: seq<DeltaOperation>, totalRows: int)
    | StatusEvent(status: Status, code: string, message: Option<string>)

  function Zip(keys: seq<string>, rows: seq<Row>): (window: seq<Entry>)
    requires |keys| == |rows|
  {
    seq(|keys|, i requires 0 <= i < |keys| => Entry(keys[i], rows[i]))
  }

  ghost predicate HasKey(window: seq<Entry>, key: string) {
    exists i :: 0 <= i < |window| && window[i].key == key
  }

  ghost function IndexOfKey(window: seq<Entry>, key: string): (i: nat)
    requires HasKey(window, key)
    ensures i < |window| && window[i].key == key
  {
    var i :| 0 <= i < |window| && window[i].key == key;
    i
  }

  lemma ZipInsertAt(keys: seq<string>, rows: seq<Row>, i: nat, key: string, row: Row)
    requires |keys| == |rows| && i <= |keys|
    ensures Zip(InsertAt(keys, i, key), InsertAt(rows, i, row)) == InsertAt(Zip(keys, rows), i, Entry(key, row))
  {
  }

  lemma ZipRemoveAt(keys: seq<string>, rows: seq<Row>, i: nat)
    requires |keys| == |rows| && i < |keys|
    ensures Zip(RemoveAt(keys, i), RemoveAt(rows, i)) == RemoveAt(Zip(keys, rows), i)
  {
  }

  ghost predicate DistinctStrings(keys: seq<string>) {
    forall i, j | 0 <= i < j < |keys| :: keys[i] != keys[j]
  }

  ghost function KeySet(keys: seq<string>): set<string> {
    set k | k in keys
  }

  lemma KeysAfterInsert(keys: seq<string>, i: nat, key: string)
    requires DistinctStrings(keys) && i <= |keys| && key !in KeySet(keys)
    ensures DistinctStrings(InsertAt(keys, i, key))
    ensures KeySet(InsertAt(keys, i, key)) == KeySet(keys) + {key}
  {
    var r := InsertAt(keys, i, key);
    assert r[i] == key;
    forall k | k in keys
      ensures k in r
    {
      var j :| 0 <= j < |keys| && keys[j] == k;
      assert r[if j < i then j else j + 1] == k;
    }
  }

  lemma KeysAfterRemove(keys: seq<string>, i: nat)
    requires DistinctStrings(keys) && i < |keys|
    ensures DistinctStrings(RemoveAt(keys, i))
    ensures KeySet(RemoveAt(keys, i)) == KeySet(keys) - {keys[i]}
  {
    var r := RemoveAt(keys, i);
    forall k | k in keys && k != keys[i]
      ensures k in r
    {
      var j :| 0 <= j < |keys| && keys[j] == k;
      assert r[if j < i then j else j - 1] == k;
    }
  }

  /** One delta operation on a window of distinct keys; `None` when the operation does not fit. */
  ghost function ApplyOperation(window: seq<Entry>, operation: DeltaOperation): Option<seq<Entry>> {
    match operation
    case InsertOp(key, row, index) =>
      if 0 <= index <= |window| && !HasKey(window, key) then Some(InsertAt(window, index, Entry(key, row))) else None
    case UpdateOp(key, row, index) =>
      if 0 <= index < |window| && window[index].key == key then Some(window[index := Entry(key, row)]) else None
    case MoveOp(key, from, to) =>
      if 0 <= from < |window| && 0 <= to < |window| && window[from].key == key then
        Some(InsertAt(RemoveAt(window, from), to, window[from]))
      else None
    case RemoveOp(key) =>
      if HasKey(window, key) then Some(RemoveAt(window, IndexOfKey(window, key))) else None
  }

  ghost function ApplyOperations(window: seq<Entry>, operations: seq<DeltaOperation>): Option<seq<Entry>> {
    if operations == [] then Some(window)
    else
      var before := ApplyOperations(window, operations[..|operations| - 1]);
      if before.None? then None else ApplyOperation(before.value, operations[|operations| - 1])
  }

  lemma ApplyOneMore(window: seq<Entry>, operations: seq<DeltaOperation>, operation: DeltaOperation,
                     reached: seq<Entry>)
    requires ApplyOperations(window, operations) == Some(reached)
    ensures ApplyOperations(window, operations + [operation]) == ApplyOperation(reached, operation)
  {
    assert (operations + [operation])[..|operations|] == operations;
  }
}
