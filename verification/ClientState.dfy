/** The client's view of a live query and the reducer that replays events on it. */
module ClientState {
  import opened Values
  import opened Sequences
  import opened Rows
  import opened LiveProtocol

  datatype State = State(
    rows: seq<Row>,
    keys: seq<string>,
    totalRows: int,
    version: int,
    status: Status,
    statusCode: Option<string>,
    message: Option<string>
  )

  const INITIAL: State := State([], [], 0, 0, Loading, None, None)

  /** A state the reducer can be in: rows and keys run in parallel and no key repeats. */
  ghost predicate WellFormed(state: State) {
    |state.rows| == |state.keys| && DistinctStrings(state.keys)
  }

  ghost predicate ValidSnapshot(event: LiveEvent)
    requires event.SnapshotEvent?
  {
    && event.version >= 0 && event.totalRows >= 0
    && event.totalRows >= |event.rows|
    && |event.keys| == |event.rows|
    && DistinctStrings(event.keys)
  }

  predicate CanApplyDeltaFromVersion(state: State, event: LiveEvent)
    requires event.DeltaEvent?
  {
    && state.status == Ready
    && state.version >= 0 && event.fromVersion >= 0 && event.toVersion >= 0 && event.totalRows >= 0
    && state.version == event.fromVersion
    && event.toVersion > state.version
  }

  function StaleDelta(state: State): State {
    state.(status := Stale, statusCode := Some("SnapshotStale"),
           message := Some("Received an invalid delta; waiting for a fresh snapshot."))
  }

  function StaleSnapshot(state: State): State {
    state.(status := Stale, statusCode := Some("SnapshotStale"),
           message := Some("Received an invalid snapshot; waiting for a fresh snapshot."))
  }

  /** What a client state becomes on an event. */
  ghost function Next(state: State, event: LiveEvent): (next: State)
    requires |state.rows| == |state.keys|
    ensures |next.rows| == |next.keys|
  {
    match event
    case SnapshotEvent(version, keys, rows, totalRows) =>
      if ValidSnapshot(event) then State(rows, keys, totalRows, version, Ready, Some("Ready"), None)
      else StaleSnapshot(state)
    case DeltaEvent(fromVersion, toVersion, operations, totalRows) =>
      var applied := ApplyOperations(Zip(state.keys, state.rows), operations);
      if CanApplyDeltaFromVersion(state, event) && applied.Some? && totalRows >= |applied.value| then
        State(RowsOf(applied.value), KeysOf(applied.value), totalRows, toVersion, Ready, Some("Ready"), None)
      else StaleDelta(state)
    case StatusEvent(status, code, message) =>
      (if status == Closed then INITIAL else state).(status := status, statusCode := Some(code), message := message)
  }

  /** A delta is accepted by a client that is ready, at the version the delta starts from and before the one it leads
      to, when all its operations fit and it counts at least the rows it leaves. Any other delta leaves what is shown
      and makes the client stale. */
  lemma DeltaMeans(state: State, event: LiveEvent)
    requires |state.rows| == |state.keys| && event.DeltaEvent?
    ensures
      var next, applied := Next(state, event), ApplyOperations(Zip(state.keys, state.rows), event.operations);
      if state.status == Ready && 0 <= state.version == event.fromVersion < event.toVersion
         && applied.Some? && event.totalRows >= |applied.value| then
        && next.status == Ready && next.version == event.toVersion && next.totalRows == event.totalRows
        && Zip(next.keys, next.rows) == applied.value
      else
        && next.status == Stale && next.rows == state.rows && next.keys == state.keys
        && next.version == state.version && next.totalRows == state.totalRows
  {
    var applied := ApplyOperations(Zip(state.keys, state.rows), event.operations);
    if applied.Some? {
      assert Zip(KeysOf(applied.value), RowsOf(applied.value)) == applied.value;
    }
  }

  method HasUniqueKeys(keys: seq<string>) returns (unique: bool)
    ensures unique <==> DistinctStrings(keys)
  {
    var seenKeys: set<string> := {};
    for i := 0 to |keys|
      invariant seenKeys == set k | k in keys[..i]
      invariant DistinctStrings(keys[..i])
    {
      if keys[i] in seenKeys {
        var j :| 0 <= j < i && keys[..i][j] == keys[i];
        assert keys[j] == keys[i];
        return false;
      }
      assert keys[..i + 1] == keys[..i] + [keys[i]];
      seenKeys := seenKeys + {keys[i]};
    }
    assert keys[..|keys|] == keys;
    return true;
  }

  method IsValidSnapshotEvent(event: LiveEvent) returns (valid: bool)
    requires event.SnapshotEvent?
    ensures valid <==> ValidSnapshot(event)
  {
    if event.version < 0 || event.totalRows < 0 || event.totalRows < |event.rows| || |event.keys| != |event.rows| {
      return false;
    }
    valid := HasUniqueKeys(event.keys);
  }

  /** The working copy of a window while a delta is replayed on it, with the position of every key. */
  class DeltaReplay {
    var rows: seq<Row>
    var keys: seq<string>
    var keyIndexes: map<string, nat>

    ghost predicate Valid()
      reads this
    {
      && |rows| == |keys|
      && (forall i | 0 <= i < |keys| :: keys[i] in keyIndexes && keyIndexes[keys[i]] == i)
      && (forall k | k in keyIndexes :: keyIndexes[k] < |keys| && keys[keyIndexes[k]] == k)
    }

    ghost function Window(): seq<Entry>
      requires |rows| == |keys|
      reads this
    {
      Zip(keys, rows)
    }

    constructor (state: State)
      requires WellFormed(state)
      ensures Valid() && Window() == Zip(state.keys, state.rows)
    {
      rows, keys := state.rows, state.keys;
      keyIndexes := map i | 0 <= i < |state.keys| :: state.keys[i] := i;
    }

    /** Writes the positions of the keys from `startIndex` on. */
    method ReindexKeys(startIndex: nat)
      requires |rows| == |keys|
      requires forall i | 0 <= i < |keys| && i < startIndex :: keys[i] in keyIndexes && keyIndexes[keys[i]] == i
      requires DistinctStrings(keys)
      requires keyIndexes.Keys <= KeySet(keys)
      modifies this`keyIndexes
      ensures Valid()
    {
      var index := startIndex;
      while index < |keys|
        invariant startIndex <= index
        invariant forall i | 0 <= i < |keys| && i < index :: keys[i] in keyIndexes && keyIndexes[keys[i]] == i
        invariant keyIndexes.Keys <= KeySet(keys)
      {
        keyIndexes := keyIndexes[keys[index] := index];
        index := index + 1;
      }
    }

    lemma IndexKnowsKeys(key: string)
      requires Valid()
      ensures keyIndexes.Keys == KeySet(keys) && DistinctStrings(keys)
      ensures key in keyIndexes <==> HasKey(Window(), key)
      ensures key in keyIndexes ==> IndexOfKey(Window(), key) == keyIndexes[key]
    {
      if key in keyIndexes {
        assert Window()[keyIndexes[key]].key == key;
      }
    }

    /** Replays one operation in place; refuses it, leaving the window as it was, when it does not fit. */
    method ApplyDeltaOperation(operation: DeltaOperation) returns (applied: bool)
      requires Valid()
      modifies this
      ensures Valid()
      ensures applied <==> ApplyOperation(old(Window()), operation).Some?
      ensures applied ==> Window() == ApplyOperation(old(Window()), operation).value
      ensures !applied ==> Window() == old(Window())
    {
      match operation
      case InsertOp(key, row, index) =>
        applied := ApplyInsert(key, row, index);
      case UpdateOp(key, row, index) =>
        if !(0 <= index < |keys|) || keys[index] != key {
          return false;
        }
        rows := rows[index := row];
        keyIndexes := keyIndexes[key := index];
        return true;
      case MoveOp(key, from, to) =>
        applied := ApplyMove(key, from, to);
      case RemoveOp(key) =>
        applied := ApplyRemove(key);
    }

    method ApplyInsert(key: string, row: Row, index: int) returns (applied: bool)
      requires Valid()
      modifies this
      ensures Valid()
      ensures applied <==> ApplyOperation(old(Window()), InsertOp(key, row, index)).Some?
      ensures applied ==> Window() == ApplyOperation(old(Window()), InsertOp(key, row, index)).value
      ensures !applied ==> Window() == old(Window())
    {
      IndexKnowsKeys(key);
      if !(0 <= index <= |keys|) || key in keyIndexes {
        return false;
      }
      KeysAfterInsert(keys, index, key);
      ZipInsertAt(keys, rows, index, key, row);
      rows := InsertAt(rows, index, row);
      keys := InsertAt(keys, index, key);
      ReindexKeys(index);
      return true;
    }

    method ApplyMove(key: string, from: int, to: int) returns (applied: bool)
      requires Valid()
      modifies this
      ensures Valid()
      ensures applied <==> ApplyOperation(old(Window()), MoveOp(key, from, to)).Some?
      ensures applied ==> Window() == ApplyOperation(old(Window()), MoveOp(key, from, to)).value
      ensures !applied ==> Window() == old(Window())
    {
      if !(0 <= from < |keys|) || !(0 <= to < |keys|) || keys[from] != key {
        return false;
      }
      IndexKnowsKeys(key);
      var movedRow, movedKey := rows[from], keys[from];
      KeysAfterRemove(keys, from);
      KeysAfterInsert(RemoveAt(keys, from), to, key);
      ZipRemoveAt(keys, rows, from);
      ZipInsertAt(RemoveAt(keys, from), RemoveAt(rows, from), to, key, rows[from]);
      rows := RemoveAt(rows, from);
      keys := RemoveAt(keys, from);
      rows := InsertAt(rows, to, movedRow);
      keys := InsertAt(keys, to, movedKey);
      ReindexKeys(if from <= to then from else to);
      return true;
    }

    method ApplyRemove(key: string) returns (applied: bool)
      requires Valid()
      modifies this
      ensures Valid()
      ensures applied <==> ApplyOperation(old(Window()), RemoveOp(key)).Some?
      ensures applied ==> Window() == ApplyOperation(old(Window()), RemoveOp(key)).value
      ensures !applied ==> Window() == old(Window())
    {
      IndexKnowsKeys(key);
      if key !in keyIndexes {
        return false;
      }
      var index := keyIndexes[key];
      KeysAfterRemove(keys, index);
      ZipRemoveAt(keys, rows, index);
      rows := RemoveAt(rows, index);
      keys := RemoveAt(keys, index);
      keyIndexes := keyIndexes - {key};
      ReindexKeys(index);
      return true;
    }
  }

  /** Replays a delta. The first operation that does not fit makes the whole delta invalid. */
  method ApplyDelta(state: State, event: LiveEvent) returns (next: State)
    requires WellFormed(state) && event.DeltaEvent?
    ensures next == Next(state, event) && WellFormed(next)
  {
    if !CanApplyDeltaFromVersion(state, event) {
      return StaleDelta(state);
    }
    var replay := new DeltaReplay(state);
    ghost var start := Zip(state.keys, state.rows);
    for i := 0 to |event.operations|
      invariant replay.Valid()
      invariant fresh(replay)
      invariant ApplyOperations(start, event.operations[..i]) == Some(replay.Window())
    {
      assert event.operations[..i + 1][..i] == event.operations[..i];
      var applied := replay.ApplyDeltaOperation(event.operations[i]);
      if !applied {
        RefusedMeansInvalid(start, event.operations, i + 1);
        return StaleDelta(state);
      }
    }
    assert event.operations[..|event.operations|] == event.operations;
    if event.totalRows < |replay.rows| {
      return StaleDelta(state);
    }
    assert RowsOf(replay.Window()) == replay.rows && KeysOf(replay.Window()) == replay.keys;
    return State(replay.rows, replay.keys, event.totalRows, event.toVersion, Ready, Some("Ready"), None);
  }

  lemma {:induction false} RefusedMeansInvalid(start: seq<Entry>, operations: seq<DeltaOperation>, n: nat)
    requires n <= |operations| && ApplyOperations(start, operations[..n]).None?
    ensures ApplyOperations(start, operations).None?
    decreases |operations|
  {
    if n == |operations| {
      assert operations[..n] == operations;
    } else {
      var front := operations[..|operations| - 1];
      assert front[..n] == operations[..n];
      RefusedMeansInvalid(start, front, n);
    }
  }

  /** The reducer. */
  method ApplyEvent(state: State, event: LiveEvent) returns (next: State)
    requires WellFormed(state)
    ensures next == Next(state, event) && WellFormed(next)
  {
    match event
    case SnapshotEvent(version, keys, rows, totalRows) =>
      var valid := IsValidSnapshotEvent(event);
      if !valid {
        return StaleSnapshot(state);
      }
      return State(rows, keys, totalRows, version, Ready, Some("Ready"), None);
    case DeltaEvent(_, _, _, _) =>
      next := ApplyDelta(state, event);
    case StatusEvent(status, code, message) =>
      var baseState := if status == Closed then INITIAL else state;
      return baseState.(status := status, statusCode := Some(code), message := message);
  }
}
