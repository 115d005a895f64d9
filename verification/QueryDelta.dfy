/** The difference between two evaluations of a query, as the delta operations that replay it. */
module QueryDelta {
  import opened Values
  import opened Sequences
  import opened Rows
  import opened LiveProtocol
  import Ranking

  const MINIMUM_REPLACEMENT_DELTA_FAST_PATH_OPERATIONS: nat := 8

  datatype SingleMovedKey = SingleMovedKey(fromIndex: nat, key: string, toIndex: nat)

  // ----- What a delta may say -----

  /** The operation is called for by the difference: only entries that are gone are removed, only new ones inserted,
      nothing is moved to where it is, and only rows that changed are updated. */
  ghost predicate Needed(operation: DeltaOperation, previous: seq<Entry>, next: seq<Entry>) {
    match operation
    case RemoveOp(key) => HasKey(previous, key) && !HasKey(next, key)
    case InsertOp(key, row, i) => !HasKey(previous, key) && 0 <= i < |next| && next[i] == Entry(key, row)
    case MoveOp(key, from, to) => HasKey(previous, key) && from != to && 0 <= to < |next| && next[to].key == key
    case UpdateOp(key, row, i) =>
      HasKey(previous, key) && Entry(key, row) !in previous && 0 <= i < |next| && next[i] == Entry(key, row)
  }

  /** Every operation is called for and none comes twice. */
  ghost predicate OnlyNeeded(operations: seq<DeltaOperation>, previous: seq<Entry>, next: seq<Entry>) {
    Ranking.NoDuplicates(operations) && forall o | o in operations :: Needed(o, previous, next)
  }

  lemma OneMoreNeeded(operations: seq<DeltaOperation>, o: DeltaOperation, previous: seq<Entry>, next: seq<Entry>)
    requires OnlyNeeded(operations, previous, next) && Needed(o, previous, next) && o !in operations
    ensures OnlyNeeded(operations + [o], previous, next)
  {
  }

  /** All that was inserted, moved or updated lies before `i`. */
  ghost predicate EditedBefore(operations: seq<DeltaOperation>, i: nat) {
    forall o | o in operations :: Ends(o) < i
  }

  ghost function Ends(operation: DeltaOperation): int {
    match operation
    case RemoveOp(_) => -1
    case InsertOp(_, _, i) => i
    case MoveOp(_, _, to) => to
    case UpdateOp(_, _, i) => i
  }

  /** A move and then updates only. */
  ghost predicate MovesOnce(operations: seq<DeltaOperation>) {
    |operations| > 0 && operations[0].MoveOp? && forall i | 0 < i < |operations| :: operations[i].UpdateOp?
  }

  ghost predicate IsSingleMove(previous: seq<Entry>, next: seq<Entry>) {
    !SameKeys(previous, next) && exists m :: IsMove(m, previous, next)
  }

  // ----- One entry moved -----

  function Moved(window: seq<Entry>, from: nat, to: nat): (moved: seq<Entry>)
    requires from < |window| && to < |window|
  {
    InsertAt(RemoveAt(window, from), to, window[from])
  }

  ghost predicate SameKeys(a: seq<Entry>, b: seq<Entry>) {
    |a| == |b| && forall i | 0 <= i < |a| :: a[i].key == b[i].key
  }

  /** Moving the named entry of `previous` puts its keys in the order of `next`. */
  ghost predicate IsMove(m: SingleMovedKey, previous: seq<Entry>, next: seq<Entry>) {
    && m.fromIndex < |previous| && m.toIndex < |previous|
    && previous[m.fromIndex].key == m.key
    && SameKeys(Moved(previous, m.fromIndex, m.toIndex), next)
  }

  lemma DownKeys(previous: seq<Entry>, next: seq<Entry>, first: nat, last: nat)
    requires |previous| == |next| && first <= last < |previous|
    requires forall i | 0 <= i < first || last < i < |previous| :: previous[i].key == next[i].key
    ensures SameKeys(Moved(previous, first, last), next) <==>
      previous[first].key == next[last].key && forall i | first <= i < last :: previous[i + 1].key == next[i].key
  {
    var m := Moved(previous, first, last);
    assert |m| == |next| && m[last] == previous[first];
    assert forall i | first <= i < last :: m[i] == previous[i + 1];
    assert forall i | 0 <= i < first || last < i < |previous| :: m[i] == previous[i];
  }

  lemma UpKeys(previous: seq<Entry>, next: seq<Entry>, first: nat, last: nat)
    requires |previous| == |next| && first <= last < |previous|
    requires forall i | 0 <= i < first || last < i < |previous| :: previous[i].key == next[i].key
    ensures SameKeys(Moved(previous, last, first), next) <==>
      previous[last].key == next[first].key && forall i | first < i <= last :: previous[i - 1].key == next[i].key
  {
    var m := Moved(previous, last, first);
    assert |m| == |next| && m[first] == previous[last];
    assert forall i | first < i <= last :: m[i] == previous[i - 1];
    assert forall i | 0 <= i < first || last < i < |previous| :: m[i] == previous[i];
  }

  /** The entry between `first` and `last` that moved down past all others, if that is what happened. */
  method MovedDown(previous: seq<Entry>, next: seq<Entry>, first: nat, last: nat)
    returns (moved: Option<SingleMovedKey>)
    requires |previous| == |next| && first <= last < |previous|
    requires forall i | 0 <= i < first || last < i < |previous| :: previous[i].key == next[i].key
    ensures moved.Some? ==> IsMove(moved.value, previous, next)
    ensures moved.Some? <==> SameKeys(Moved(previous, first, last), next)
  {
    DownKeys(previous, next, first, last);
    if previous[first].key != next[last].key {
      return None;
    }
    for index := first to last
      invariant forall i | first <= i < index :: previous[i + 1].key == next[i].key
    {
      if previous[index + 1].key != next[index].key {
        return None;
      }
    }
    return Some(SingleMovedKey(first, previous[first].key, last));
  }

  /** The entry between `first` and `last` that moved up past all others, if that is what happened. */
  method MovedUp(previous: seq<Entry>, next: seq<Entry>, first: nat, last: nat) returns (moved: Option<SingleMovedKey>)
    requires |previous| == |next| && first <= last < |previous|
    requires forall i | 0 <= i < first || last < i < |previous| :: previous[i].key == next[i].key
    ensures moved.Some? ==> IsMove(moved.value, previous, next)
    ensures moved.Some? <==> SameKeys(Moved(previous, last, first), next)
  {
    UpKeys(previous, next, first, last);
    if previous[last].key != next[first].key {
      return None;
    }
    for index := first + 1 to last + 1
      invariant forall i | first < i < index :: previous[i - 1].key == next[i].key
    {
      if previous[index - 1].key != next[index].key {
        return None;
      }
    }
    return Some(SingleMovedKey(last, previous[last].key, first));
  }

  /** The one entry whose move explains the new key order; found whenever there is one. */
  method FindSingleMovedKey(previous: seq<Entry>, next: seq<Entry>) returns (moved: Option<SingleMovedKey>)
    requires DistinctKeys(previous) && DistinctKeys(next)
    ensures moved.Some? ==> IsMove(moved.value, previous, next)
    ensures moved.None? <==> SameKeys(previous, next) || forall m :: !IsMove(m, previous, next)
  {
    if |previous| != |next| {
      return None;
    }
    var firstChanged, lastChanged := -1, -1;
    for index := 0 to |previous|
      invariant -1 <= firstChanged <= lastChanged < index
      invariant (firstChanged == -1) == (lastChanged == -1)
      invariant firstChanged != -1 ==> previous[firstChanged].key != next[firstChanged].key
      invariant lastChanged != -1 ==> previous[lastChanged].key != next[lastChanged].key
      invariant forall i | 0 <= i < index && (i < firstChanged || i > lastChanged) :: previous[i].key == next[i].key
    {
      if previous[index].key != next[index].key {
        if firstChanged == -1 {
          firstChanged := index;
        }
        lastChanged := index;
      }
    }
    if firstChanged == -1 {
      return None;
    }
    var movedDown := MovedDown(previous, next, firstChanged, lastChanged);
    var movedUp := MovedUp(previous, next, firstChanged, lastChanged);
    forall m | IsMove(m, previous, next)
      ensures movedDown.Some? || movedUp.Some?
    {
      MoveSpansChanges(m, previous, next, firstChanged, lastChanged);
    }
    if movedDown.None? {
      return movedUp;
    }
    if movedUp.None? {
      return movedDown;
    }
    var movedDownRowChanged := previous[movedDown.value.fromIndex].row != next[movedDown.value.toIndex].row;
    var movedUpRowChanged := previous[movedUp.value.fromIndex].row != next[movedUp.value.toIndex].row;
    return if movedUpRowChanged && !movedDownRowChanged then movedUp else movedDown;
  }

  /** A move changes the keys at its two ends and nowhere outside them. */
  lemma MoveSpansChanges(m: SingleMovedKey, previous: seq<Entry>, next: seq<Entry>, first: nat, last: nat)
    requires DistinctKeys(previous) && IsMove(m, previous, next) && first <= last < |previous| == |next|
    requires previous[first].key != next[first].key && previous[last].key != next[last].key
    requires forall i | 0 <= i < first || last < i < |previous| :: previous[i].key == next[i].key
    ensures (m.fromIndex == first && m.toIndex == last) || (m.fromIndex == last && m.toIndex == first)
  {
    hide Moved;
    var from, to := m.fromIndex, m.toIndex;
    MovedAt(previous, from, to);
    MovedToItself(previous, from);
    assert from != to && next[to].key == previous[from].key;
    assert previous[from].key != next[from].key && previous[to].key != next[to].key;
  }

  lemma MovedAt(window: seq<Entry>, from: nat, to: nat)
    requires from < |window| && to < |window|
    ensures
      var moved := Moved(window, from, to);
      && |moved| == |window| && moved[to] == window[from]
      && (from < to ==> moved[from] == window[from + 1]) && (to < from ==> moved[from] == window[from - 1])
      && forall i | (0 <= i < from && i < to) || (from < i < |window| && to < i) :: moved[i] == window[i]
  {
  }

  lemma RowsMove(window: seq<Entry>, from: nat, to: nat)
    requires from < |window| && to < |window|
    ensures RowsOf(Moved(window, from, to)) == InsertAt(RemoveAt(RowsOf(window), from), to, RowsOf(window)[from])
  {
    RowsRemoveAt(window, from);
    RowsInsertAt(RemoveAt(window, from), to, window[from]);
  }

  lemma RowsRemoveAt(window: seq<Entry>, i: nat)
    requires i < |window|
    ensures RowsOf(RemoveAt(window, i)) == RemoveAt(RowsOf(window), i)
  {
  }

  lemma RowsInsertAt(window: seq<Entry>, i: nat, e: Entry)
    requires i <= |window|
    ensures RowsOf(InsertAt(window, i, e)) == InsertAt(RowsOf(window), i, e.row)
  {
  }

  /** The move followed by an update of every row that differs. */
  method SingleMoveDeltaOperations(previous: seq<Entry>, next: seq<Entry>) returns (result: Option<seq<DeltaOperation>>)
    requires DistinctKeys(previous) && DistinctKeys(next)
    ensures result.Some? ==> ApplyOperations(previous, result.value) == Some(next)
    ensures result.Some? ==> OnlyNeeded(result.value, previous, next) && MovesOnce(result.value)
    ensures result.Some? <==> IsSingleMove(previous, next)
  {
    hide OnlyNeeded, Needed;
    var moved := FindSingleMovedKey(previous, next);
    if moved.None? {
      return None;
    }
    var m := moved.value;
    var operation := MoveOp(m.key, m.fromIndex, m.toIndex);
    var movedRows := RowsOf(previous);
    var movedRow := movedRows[m.fromIndex];
    movedRows := InsertAt(RemoveAt(movedRows, m.fromIndex), m.toIndex, movedRow);
    RowsMove(previous, m.fromIndex, m.toIndex);
    MovedEntriesAreOld(previous, m.fromIndex, m.toIndex);
    ApplyOneMore(previous, [], operation, previous);
    assert [operation] == [] + [operation];
    MoveIsNeeded(m, previous, next);
    var operations := AppendRowUpdates([operation], movedRows, next, previous, Moved(previous, m.fromIndex, m.toIndex));
    return Some(operations);
  }

  lemma MoveIsNeeded(m: SingleMovedKey, previous: seq<Entry>, next: seq<Entry>)
    requires IsMove(m, previous, next) && !SameKeys(previous, next)
    ensures OnlyNeeded([MoveOp(m.key, m.fromIndex, m.toIndex)], previous, next)
  {
    assert previous[m.fromIndex].key == m.key;
    assert Moved(previous, m.fromIndex, m.toIndex)[m.toIndex] == previous[m.fromIndex];
    MovedToItself(previous, m.fromIndex);
  }

  lemma MovedToItself(window: seq<Entry>, i: nat)
    requires i < |window|
    ensures Moved(window, i, i) == window
  {
  }

  lemma MovedEntriesAreOld(window: seq<Entry>, from: nat, to: nat)
    requires from < |window| && to < |window|
    ensures forall x | x in Moved(window, from, to) :: x in window
  {
    var moved := Moved(window, from, to);
    forall h | 0 <= h < |moved|
      ensures moved[h] in window
    {
      assert moved[h] == window[from] || moved[h] == window[h] || (h < |window| - 1 && moved[h] == window[h + 1]) ||
        (h > 0 && moved[h] == window[h - 1]);
    }
  }

  /** A row that differs from the one the previous window has under its key is to be updated. */
  lemma UpdateIsNeeded(held: Entry, i: nat, previous: seq<Entry>, next: seq<Entry>)
    requires DistinctKeys(previous) && i < |next| && held in previous
    requires held.key == next[i].key && held.row != next[i].row
    ensures Needed(UpdateOp(next[i].key, next[i].row, i), previous, next)
  {
    var h :| 0 <= h < |previous| && previous[h] == held;
    assert previous[h].key == next[i].key;
  }

  /** Updates, one by one, the rows of a window whose keys are already those of `next`. */
  method AppendRowUpdates(operations: seq<DeltaOperation>, rows: seq<Row>, next: seq<Entry>, ghost previous: seq<Entry>,
                          ghost start: seq<Entry>)
    returns (result: seq<DeltaOperation>)
    requires ApplyOperations(previous, operations) == Some(start) && MovesOnce(operations) && |operations| == 1
    requires SameKeys(start, next) && rows == RowsOf(start)
    requires DistinctKeys(previous) && forall x | x in start :: x in previous
    requires OnlyNeeded(operations, previous, next)
    ensures ApplyOperations(previous, result) == Some(next)
    ensures OnlyNeeded(result, previous, next) && MovesOnce(result)
  {
    hide ApplyOperations, OnlyNeeded, Needed;
    assert Spliced(next, start, 0) == start;
    result := operations;
    for index := 0 to |next|
      invariant ApplyOperations(previous, result) == Some(Spliced(next, start, index))
      invariant OnlyNeeded(result, previous, next) && MovesOnce(result)
      invariant forall o | o in result && o.UpdateOp? :: o.index < index
    {
      var entry := next[index];
      SplicedStep(next, start, index);
      if rows[index] != entry.row {
        ApplyOneMore(previous, result, UpdateOp(entry.key, entry.row, index), Spliced(next, start, index));
        UpdateIsNeeded(start[index], index, previous, next);
        OneMoreNeeded(result, UpdateOp(entry.key, entry.row, index), previous, next);
        result := result + [UpdateOp(entry.key, entry.row, index)];
      }
    }
    assert Spliced(next, start, |next|) == next;
  }

  /** `next` up to `i`, `start` from there on. */
  ghost function Spliced(next: seq<Entry>, start: seq<Entry>, i: nat): seq<Entry>
    requires i <= |next| == |start|
  {
    next[..i] + start[i..]
  }

  lemma SplicedStep(next: seq<Entry>, start: seq<Entry>, i: nat)
    requires SameKeys(start, next) && i < |next|
    ensures Spliced(next, start, i + 1) == Spliced(next, start, i)[i := next[i]]
    ensures Spliced(next, start, i)[i].key == next[i].key
    ensures start[i].row == next[i].row ==> Spliced(next, start, i + 1) == Spliced(next, start, i)
  {
  }

  // ----- Removing what is gone -----

  /** The entries whose key is among `keys`, in order. */
  function Shared(window: seq<Entry>, keys: set<string>): seq<Entry> {
    if window == [] then []
    else
      var front, last := window[..|window| - 1], window[|window| - 1];
      if last.key in keys then Shared(front, keys) + [last] else Shared(front, keys)
  }

  lemma {:induction false} SharedMembers(window: seq<Entry>, keys: set<string>)
    requires DistinctKeys(window)
    ensures forall x :: x in Shared(window, keys) <==> x in window && x.key in keys
    ensures DistinctKeys(Shared(window, keys))
    ensures |Shared(window, keys)| <= |window|
  {
    if window != [] {
      SharedMembers(window[..|window| - 1], keys);
    }
  }

  /** The window after the removals among its first `j` entries. */
  function AfterRemovals(previous: seq<Entry>, keys: set<string>, j: nat): seq<Entry>
    requires j <= |previous|
  {
    Shared(previous[..j], keys) + previous[j..]
  }

  lemma RemovalStep(previous: seq<Entry>, keys: set<string>, j: nat)
    requires DistinctKeys(previous) && j < |previous|
    ensures DistinctKeys(AfterRemovals(previous, keys, j))
    ensures AfterRemovals(previous, keys, j)[|Shared(previous[..j], keys)|] == previous[j]
    ensures AfterRemovals(previous, keys, j + 1) ==
            if previous[j].key in keys then AfterRemovals(previous, keys, j)
            else RemoveAt(AfterRemovals(previous, keys, j), |Shared(previous[..j], keys)|)
  {
    var shared, w := Shared(previous[..j], keys), AfterRemovals(previous, keys, j);
    SharedMembers(previous[..j], keys);
    assert previous[..j + 1][..j] == previous[..j];
    forall a, b | 0 <= a < b < |w|
      ensures w[a].key != w[b].key
    {
      if a < |shared| <= b {
        assert shared[a] in previous[..j];
      }
    }
    assert w[|shared|].key == previous[j].key;
  }

  lemma RemovalApplies(previous: seq<Entry>, keys: set<string>, j: nat)
    requires DistinctKeys(previous) && j < |previous|
    ensures previous[j].key in keys ==> AfterRemovals(previous, keys, j + 1) == AfterRemovals(previous, keys, j)
    ensures previous[j].key !in keys ==>
      ApplyOperation(AfterRemovals(previous, keys, j), RemoveOp(previous[j].key)) ==
      Some(AfterRemovals(previous, keys, j + 1))
  {
    RemovalStep(previous, keys, j);
    var w := AfterRemovals(previous, keys, j);
    assert HasKey(w, previous[j].key);
    assert IndexOfKey(w, previous[j].key) == |Shared(previous[..j], keys)|;
  }

  ghost predicate IsKeySet(keys: set<string>, window: seq<Entry>) {
    && (forall i | 0 <= i < |window| :: window[i].key in keys)
    && (forall k | k in keys :: HasKey(window, k))
  }

  function KeySetOf(window: seq<Entry>): (keys: set<string>)
    ensures IsKeySet(keys, window)
  {
    set i | 0 <= i < |window| :: window[i].key
  }

  lemma NothingIsNeeded(previous: seq<Entry>, next: seq<Entry>)
    ensures OnlyNeeded([], previous, next) && EditedBefore([], 0) && ApplyOperations(previous, []) == Some(previous)
  {
  }

  lemma AllRemovals(previous: seq<Entry>, keys: set<string>)
    ensures AfterRemovals(previous, keys, 0) == previous
    ensures AfterRemovals(previous, keys, |previous|) == Shared(previous, keys)
  {
    assert previous[..|previous|] == previous;
  }

  lemma RemovalIsNeeded(j: nat, nextKeys: set<string>, previous: seq<Entry>, next: seq<Entry>)
    requires IsKeySet(nextKeys, next) && j < |previous| && previous[j].key !in nextKeys
    ensures Needed(RemoveOp(previous[j].key), previous, next)
  {
  }

  /** Removals of all entries whose key the next window no longer has. */
  method RemoveOperations(previous: seq<Entry>, nextKeys: set<string>, ghost next: seq<Entry>)
    returns (operations: seq<DeltaOperation>)
    requires DistinctKeys(previous) && IsKeySet(nextKeys, next)
    ensures OnlyNeeded(operations, previous, next) && EditedBefore(operations, 0)
    ensures ApplyOperations(previous, operations) == Some(Shared(previous, nextKeys))
    ensures operations == [] <==> forall i | 0 <= i < |previous| :: previous[i].key in nextKeys
  {
    hide OnlyNeeded, Needed, ApplyOperations, Shared, AfterRemovals;
    operations := [];
    NothingIsNeeded(previous, next);
    AllRemovals(previous, nextKeys);
    for j := 0 to |previous|
      invariant ApplyOperations(previous, operations) == Some(AfterRemovals(previous, nextKeys, j))
      invariant operations == [] <==> forall i | 0 <= i < j :: previous[i].key in nextKeys
      invariant OnlyNeeded(operations, previous, next) && EditedBefore(operations, 0)
      invariant forall h | j <= h < |previous| :: RemoveOp(previous[h].key) !in operations
    {
      RemovalApplies(previous, nextKeys, j);
      if previous[j].key !in nextKeys {
        ApplyOneMore(previous, operations, RemoveOp(previous[j].key), AfterRemovals(previous, nextKeys, j));
        RemovalIsNeeded(j, nextKeys, previous, next);
        OneMoreNeeded(operations, RemoveOp(previous[j].key), previous, next);
        operations := operations + [RemoveOp(previous[j].key)];
      }
    }
  }

  // ----- Replacement: shared rows keep their order and their contents -----

  method CountMissing(window: seq<Entry>, keys: set<string>) returns (count: nat)
    ensures count > 0 <==> exists i :: 0 <= i < |window| && window[i].key !in keys
  {
    count := 0;
    for i := 0 to |window|
      invariant count > 0 <==> exists j :: 0 <= j < i && window[j].key !in keys
    {
      if window[i].key !in keys {
        count := count + 1;
      }
    }
  }

  /** Whether the entries both windows share run in one order with the same rows. */
  method SharedRowsAgree(previous: seq<Entry>, next: seq<Entry>, previousKeys: set<string>, nextKeys: set<string>)
    returns (agree: bool)
    requires DistinctKeys(previous) && DistinctKeys(next)
    requires IsKeySet(previousKeys, previous) && IsKeySet(nextKeys, next)
    ensures agree ==> Shared(previous, nextKeys) == Shared(next, previousKeys)
  {
    var shared := 0;
    for i := 0 to |next|
      invariant 0 <= shared <= |previous|
      invariant Shared(previous[..shared], nextKeys) == Shared(next[..i], previousKeys)
    {
      assert next[..i + 1][..i] == next[..i];
      if next[i].key in previousKeys {
        while shared < |previous| && previous[shared].key !in nextKeys
          invariant 0 <= shared <= |previous|
          invariant Shared(previous[..shared], nextKeys) == Shared(next[..i], previousKeys)
        {
          assert previous[..shared + 1][..shared] == previous[..shared];
          shared := shared + 1;
        }
        if shared == |previous| || previous[shared].key != next[i].key || previous[shared].row != next[i].row {
          return false;
        }
        assert previous[..shared + 1][..shared] == previous[..shared];
        shared := shared + 1;
      }
    }
    assert next[..|next|] == next;
    NoSharedEntryLeft(previous, next, previousKeys, nextKeys, shared);
    return true;
  }

  lemma NoSharedEntryLeft(previous: seq<Entry>, next: seq<Entry>, previousKeys: set<string>, nextKeys: set<string>,
                          n: nat)
    requires DistinctKeys(previous) && DistinctKeys(next) && n <= |previous|
    requires IsKeySet(previousKeys, previous) && IsKeySet(nextKeys, next)
    requires Shared(previous[..n], nextKeys) == Shared(next, previousKeys)
    ensures Shared(previous, nextKeys) == Shared(next, previousKeys)
  {
    SharedMembers(next, previousKeys);
    SharedMembers(previous[..n], nextKeys);
    forall i | 0 <= i < |next| && next[i].key in previousKeys
      ensures next[i] in previous[..n]
    {
      assert next[i] in next && next[i] in Shared(previous[..n], nextKeys);
    }
    forall j | n <= j < |previous|
      ensures previous[j].key !in nextKeys
    {
      assert previous[j].key in nextKeys ==> HasKey(next, previous[j].key);
      assert forall i | 0 <= i < |next| && next[i].key == previous[j].key :: next[i] in previous[..n];
    }
    NothingMoreShared(previous, nextKeys, n);
  }

  lemma {:induction false} NothingMoreShared(window: seq<Entry>, keys: set<string>, n: nat)
    requires n <= |window| && forall j | n <= j < |window| :: window[j].key !in keys
    ensures Shared(window, keys) == Shared(window[..n], keys)
    decreases |window|
  {
    if n == |window| {
      assert window[..n] == window;
    } else {
      var front := window[..|window| - 1];
      NothingMoreShared(front, keys, n);
      assert front[..n] == window[..n];
    }
  }

  lemma {:induction false} SharedOfPrefix(window: seq<Entry>, keys: set<string>, i: nat)
    requires i <= |window|
    ensures Shared(window[..i], keys) <= Shared(window, keys)
    decreases |window|
  {
    if i == |window| {
      assert window[..i] == window;
    } else {
      var front := window[..|window| - 1];
      SharedOfPrefix(front, keys, i);
      assert front[..i] == window[..i];
    }
  }

  /** `next` up to `i`, then only the entries shared with the previous window. */
  ghost function BeforeInserts(next: seq<Entry>, keys: set<string>, i: nat): seq<Entry>
    requires i <= |next|
  {
    SharedOfPrefix(next, keys, i);
    next[..i] + Shared(next, keys)[|Shared(next[..i], keys)|..]
  }

  lemma InsertStep(next: seq<Entry>, keys: set<string>, i: nat)
    requires DistinctKeys(next) && i < |next|
    ensures next[i].key in keys ==> BeforeInserts(next, keys, i + 1) == BeforeInserts(next, keys, i)
    ensures next[i].key !in keys ==>
      ApplyOperation(BeforeInserts(next, keys, i), InsertOp(next[i].key, next[i].row, i)) ==
      Some(BeforeInserts(next, keys, i + 1))
  {
    SharedOfPrefix(next, keys, i);
    SharedOfPrefix(next, keys, i + 1);
    var shared := Shared(next, keys);
    var done := |Shared(next[..i], keys)|;
    assert next[..i + 1][..i] == next[..i];
    assert next[..i + 1] == next[..i] + [next[i]];
    if next[i].key in keys {
      assert shared[done] == Shared(next[..i + 1], keys)[done];
      MoveBoundary(next[..i], next[i], shared, done);
    } else {
      InsertBetween(next[..i], next[i], shared[done..]);
      NotAmong(next, keys, i, done);
    }
  }

  lemma MoveBoundary<T>(front: seq<T>, x: T, es: seq<T>, n: nat)
    requires n < |es| && es[n] == x
    ensures (front + [x]) + es[n + 1..] == front + es[n..]
  {
  }

  lemma InsertBetween<T>(front: seq<T>, x: T, back: seq<T>)
    ensures InsertAt(front + back, |front|, x) == (front + [x]) + back
  {
  }

  lemma NotAmong(next: seq<Entry>, keys: set<string>, i: nat, done: nat)
    requires DistinctKeys(next) && i < |next| && next[i].key !in keys && done <= |Shared(next, keys)|
    ensures !HasKey(next[..i] + Shared(next, keys)[done..], next[i].key)
  {
    SharedMembers(next, keys);
    var w := next[..i] + Shared(next, keys)[done..];
    forall h | 0 <= h < |w|
      ensures w[h].key != next[i].key
    {
      if h >= i {
        assert w[h] == Shared(next, keys)[done + h - i];
        assert w[h] in Shared(next, keys);
      }
    }
  }

  /** Removals and insertions only, when enough rows were replaced and the shared ones did not change. */
  method ReplacementDeltaOperations(previous: seq<Entry>, next: seq<Entry>, nextKeys: set<string>)
    returns (result: Option<seq<DeltaOperation>>)
    requires DistinctKeys(previous) && DistinctKeys(next) && IsKeySet(nextKeys, next)
    ensures result.Some? ==> result.value != [] && ApplyOperations(previous, result.value) == Some(next)
    ensures result.Some? ==> OnlyNeeded(result.value, previous, next)
    ensures previous == next ==> result.None?
  {
    hide OnlyNeeded;
    var removedCount := CountMissing(previous, nextKeys);
    if removedCount == 0 {
      return None;
    }
    var previousKeys := KeySetOf(previous);
    var insertedCount := CountMissing(next, previousKeys);
    if insertedCount == 0 || removedCount + insertedCount < MINIMUM_REPLACEMENT_DELTA_FAST_PATH_OPERATIONS {
      return None;
    }
    var agree := SharedRowsAgree(previous, next, previousKeys, nextKeys);
    if !agree {
      return None;
    }
    var operations := RemoveOperations(previous, nextKeys, next);
    assert BeforeInserts(next, previousKeys, 0) == Shared(next, previousKeys);
    for index := 0 to |next|
      invariant operations != [] && OnlyNeeded(operations, previous, next) && EditedBefore(operations, index)
      invariant ApplyOperations(previous, operations) == Some(BeforeInserts(next, previousKeys, index))
    {
      InsertStep(next, previousKeys, index);
      if next[index].key !in previousKeys {
        var operation := InsertOp(next[index].key, next[index].row, index);
        ApplyOneMore(previous, operations, operation, BeforeInserts(next, previousKeys, index));
        OneMoreNeeded(operations, operation, previous, next);
        operations := operations + [operation];
      }
    }
    assert next[..|next|] == next;
    assert BeforeInserts(next, previousKeys, |next|) == next;
    return Some(operations);
  }

  // ----- The general strategy: a working copy of the window is edited until it is the next one -----

  /** The keys and rows of the working copy run in parallel, and the position of every key is known. */
  ghost predicate Indexed(keys: seq<string>, rows: seq<Row>, keyIndexes: map<string, nat>) {
    && |keys| == |rows|
    && (forall i | 0 <= i < |keys| :: keys[i] in keyIndexes && keyIndexes[keys[i]] == i)
    && (forall k | k in keyIndexes :: keyIndexes[k] < |keys| && keys[keyIndexes[k]] == k)
  }

  /** The entries of the working copy from `i` on are still those of the previous window. */
  ghost predicate AllOld(keys: seq<string>, rows: seq<Row>, i: nat, previous: seq<Entry>) {
    |keys| == |rows| && forall h | i <= h < |keys| :: Entry(keys[h], rows[h]) in previous
  }

  /** The working copy has every key that both windows have. */
  ghost predicate KeepsShared(previous: seq<Entry>, next: seq<Entry>, keyIndexes: map<string, nat>) {
    forall h | 0 <= h < |previous| && HasKey(next, previous[h].key) :: previous[h].key in keyIndexes
  }

  lemma IndexKnowsKeys(keys: seq<string>, rows: seq<Row>, keyIndexes: map<string, nat>, key: string)
    requires Indexed(keys, rows, keyIndexes)
    ensures keyIndexes.Keys == KeySet(keys) && DistinctStrings(keys)
    ensures key in keyIndexes <==> HasKey(Zip(keys, rows), key)
    ensures key in keyIndexes ==> IndexOfKey(Zip(keys, rows), key) == keyIndexes[key]
  {
    if key in keyIndexes {
      assert Zip(keys, rows)[keyIndexes[key]].key == key;
    }
  }

  /** Writes the positions of the keys from `startIndex` on. */
  method ReindexCurrentKeys(keys: seq<string>, keyIndexes: map<string, nat>, startIndex: nat)
    returns (indexes: map<string, nat>)
    requires DistinctStrings(keys) && keyIndexes.Keys <= KeySet(keys)
    requires forall i | 0 <= i < |keys| && i < startIndex :: keys[i] in keyIndexes && keyIndexes[keys[i]] == i
    ensures indexes.Keys == KeySet(keys)
    ensures forall i | 0 <= i < |keys| :: indexes[keys[i]] == i
  {
    indexes := keyIndexes;
    var index := startIndex;
    while index < |keys|
      invariant startIndex <= index && indexes.Keys <= KeySet(keys)
      invariant forall i | 0 <= i < |keys| && i < index :: keys[i] in indexes && indexes[keys[i]] == i
    {
      indexes := indexes[keys[index] := index];
      index := index + 1;
    }
  }

  method RemoveCurrent(keys: seq<string>, rows: seq<Row>, keyIndexes: map<string, nat>, key: string)
    returns (keys': seq<string>, rows': seq<Row>, keyIndexes': map<string, nat>)
    requires Indexed(keys, rows, keyIndexes) && key in keyIndexes
    ensures Indexed(keys', rows', keyIndexes') && keyIndexes'.Keys == keyIndexes.Keys - {key}
    ensures ApplyOperation(Zip(keys, rows), RemoveOp(key)) == Some(Zip(keys', rows'))
    ensures keys' == RemoveAt(keys, keyIndexes[key]) && rows' == RemoveAt(rows, keyIndexes[key])
  {
    IndexKnowsKeys(keys, rows, keyIndexes, key);
    var index := keyIndexes[key];
    KeysAfterRemove(keys, index);
    ZipRemoveAt(keys, rows, index);
    keys' := RemoveAt(keys, index);
    rows' := RemoveAt(rows, index);
    keyIndexes' := ReindexCurrentKeys(keys', keyIndexes - {key}, index);
  }

  method InsertCurrent(keys: seq<string>, rows: seq<Row>, keyIndexes: map<string, nat>, entry: Entry, index: nat)
    returns (keys': seq<string>, rows': seq<Row>, keyIndexes': map<string, nat>)
    requires Indexed(keys, rows, keyIndexes) && index <= |keys| && entry.key !in keyIndexes
    ensures keys' == InsertAt(keys, index, entry.key) && rows' == InsertAt(rows, index, entry.row)
    ensures Indexed(keys', rows', keyIndexes') && keyIndexes'.Keys == keyIndexes.Keys + {entry.key}
    ensures ApplyOperation(Zip(keys, rows), InsertOp(entry.key, entry.row, index)) == Some(Zip(keys', rows'))
  {
    IndexKnowsKeys(keys, rows, keyIndexes, entry.key);
    KeysAfterInsert(keys, index, entry.key);
    ZipInsertAt(keys, rows, index, entry.key, entry.row);
    keys' := InsertAt(keys, index, entry.key);
    rows' := InsertAt(rows, index, entry.row);
    keyIndexes' := ReindexCurrentKeys(keys', keyIndexes, index);
  }

  method MoveCurrent(keys: seq<string>, rows: seq<Row>, keyIndexes: map<string, nat>, from: nat, to: nat)
    returns (keys': seq<string>, rows': seq<Row>, keyIndexes': map<string, nat>)
    requires Indexed(keys, rows, keyIndexes) && from < |keys| && to < |keys|
    ensures keys' == InsertAt(RemoveAt(keys, from), to, keys[from])
    ensures rows' == InsertAt(RemoveAt(rows, from), to, rows[from])
    ensures Indexed(keys', rows', keyIndexes') && keyIndexes'.Keys == keyIndexes.Keys
    ensures ApplyOperation(Zip(keys, rows), MoveOp(keys[from], from, to)) == Some(Zip(keys', rows'))
  {
    hide ApplyOperation, Zip, InsertAt, RemoveAt, KeySet;
    IndexKnowsKeys(keys, rows, keyIndexes, keys[from]);
    MoveKeepsLength(keys, from, to);
    MoveKeepsLength(rows, from, to);
    KeysAfterMove(keys, from, to);
    ZipMove(keys, rows, from, to);
    keys' := InsertAt(RemoveAt(keys, from), to, keys[from]);
    rows' := InsertAt(RemoveAt(rows, from), to, rows[from]);
    keyIndexes' := ReindexCurrentKeys(keys', keyIndexes, if from <= to then from else to);
    IndexedAnew(keys', rows', keyIndexes');
  }

  lemma MoveKeepsLength<T>(es: seq<T>, from: nat, to: nat)
    requires from < |es| && to < |es|
    ensures |RemoveAt(es, from)| == |es| - 1 && |InsertAt(RemoveAt(es, from), to, es[from])| == |es|
  {
  }

  lemma IndexedAnew(keys: seq<string>, rows: seq<Row>, indexes: map<string, nat>)
    requires |keys| == |rows| && indexes.Keys == KeySet(keys)
    requires forall i | 0 <= i < |keys| :: indexes[keys[i]] == i
    ensures Indexed(keys, rows, indexes)
  {
  }

  lemma KeysAfterMove(keys: seq<string>, from: nat, to: nat)
    requires DistinctStrings(keys) && from < |keys| && to < |keys|
    ensures DistinctStrings(InsertAt(RemoveAt(keys, from), to, keys[from]))
    ensures KeySet(InsertAt(RemoveAt(keys, from), to, keys[from])) == KeySet(keys)
    ensures forall i | 0 <= i < from && i < to :: InsertAt(RemoveAt(keys, from), to, keys[from])[i] == keys[i]
  {
    KeysAfterRemove(keys, from);
    KeysAfterInsert(RemoveAt(keys, from), to, keys[from]);
  }

  lemma ZipMove(keys: seq<string>, rows: seq<Row>, from: nat, to: nat)
    requires |keys| == |rows| && from < |keys| && to < |keys|
    ensures ApplyOperation(Zip(keys, rows), MoveOp(keys[from], from, to)) ==
            Some(Zip(InsertAt(RemoveAt(keys, from), to, keys[from]), InsertAt(RemoveAt(rows, from), to, rows[from])))
  {
    ZipRemoveAt(keys, rows, from);
    ZipInsertAt(RemoveAt(keys, from), RemoveAt(rows, from), to, keys[from], rows[from]);
  }

  lemma PlacedAfterInsert(keys: seq<string>, rows: seq<Row>, next: seq<Entry>, i: nat)
    requires PlacedUpTo(keys, rows, next, i) && i < |next|
    ensures PlacedUpTo(InsertAt(keys, i, next[i].key), InsertAt(rows, i, next[i].row), next, i + 1)
  {
  }

  lemma PlacedAfterMove(keys: seq<string>, rows: seq<Row>, next: seq<Entry>, i: nat, from: nat)
    requires PlacedUpTo(keys, rows, next, i) && i <= from < |keys|
    ensures PlacedUpTo(InsertAt(RemoveAt(keys, from), i, keys[from]), InsertAt(RemoveAt(rows, from), i, rows[from]),
                       next, i)
    ensures InsertAt(RemoveAt(keys, from), i, keys[from])[i] == keys[from]
  {
  }

  /** The keys of the entries from the `j`-th on. */
  ghost function KeysFrom(window: seq<Entry>, j: nat): set<string>
    requires j <= |window|
    decreases |window| - j
  {
    if j == |window| then {} else {window[j].key} + KeysFrom(window, j + 1)
  }

  lemma {:induction false} KeysFromHasAll(window: seq<Entry>, j: nat)
    requires j <= |window|
    ensures forall h | j <= h < |window| :: window[h].key in KeysFrom(window, j)
    decreases |window| - j
  {
    if j < |window| {
      KeysFromHasAll(window, j + 1);
    }
  }

  method CopyWindow(window: seq<Entry>) returns (keys: seq<string>, rows: seq<Row>, keyIndexes: map<string, nat>)
    requires DistinctKeys(window)
    ensures Indexed(keys, rows, keyIndexes) && Zip(keys, rows) == window
    ensures keyIndexes.Keys <= KeysFrom(window, 0)
    ensures forall h | 0 <= h < |window| :: window[h].key in keyIndexes
    ensures AllOld(keys, rows, 0, window) && forall next :: KeepsShared(window, next, keyIndexes)
  {
    keys, rows := KeysOf(window), RowsOf(window);
    keyIndexes := map i | 0 <= i < |keys| :: keys[i] := i;
    KeysFromHasAll(window, 0);
  }

  /** Removals of every entry whose key is gone, on the working copy. */
  method RemoveGone(previous: seq<Entry>, nextKeys: set<string>, ghost next: seq<Entry>)
    returns (operations: seq<DeltaOperation>, keys: seq<string>, rows: seq<Row>, keyIndexes: map<string, nat>)
    requires DistinctKeys(previous) && IsKeySet(nextKeys, next)
    ensures OnlyNeeded(operations, previous, next) && EditedBefore(operations, 0)
    ensures AllOld(keys, rows, 0, previous) && KeepsShared(previous, next, keyIndexes)
    ensures PlacedUpTo(keys, rows, next, 0)
    ensures Indexed(keys, rows, keyIndexes) && keyIndexes.Keys <= nextKeys
    ensures ApplyOperations(previous, operations) == Some(Zip(keys, rows))
    ensures (forall h | 0 <= h < |previous| :: previous[h].key in nextKeys) ==> operations == []
  {
    hide OnlyNeeded, Needed, ApplyOperations, AllOld, EditedBefore, KeepsShared, IsKeySet, KeysLeft;
    operations := [];
    NothingIsNeeded(previous, next);
    keys, rows, keyIndexes := CopyWindow(previous);
    assert KeysLeft(keyIndexes.Keys, nextKeys, previous, 0) by {
      KeysLeftAtFirst(keyIndexes.Keys, nextKeys, previous);
    }
    ghost var allStay := forall h | 0 <= h < |previous| :: previous[h].key in nextKeys;
    for j := 0 to |previous|
      invariant Indexed(keys, rows, keyIndexes) && KeysLeft(keyIndexes.Keys, nextKeys, previous, j)
      invariant ApplyOperations(previous, operations) == Some(Zip(keys, rows))
      invariant allStay ==> operations == []
      invariant OnlyNeeded(operations, previous, next) && EditedBefore(operations, 0)
      invariant forall o | o in operations :: o.RemoveOp? && o.key !in keyIndexes
      invariant AllOld(keys, rows, 0, previous) && KeepsShared(previous, next, keyIndexes)
    {
      KeysLeftAfter(keyIndexes.Keys, nextKeys, previous, j);
      operations, keys, rows, keyIndexes :=
        RemoveUnless(operations, keys, rows, keyIndexes, previous[j].key, nextKeys, previous, next);
    }
    NoKeysLeft(keyIndexes.Keys, nextKeys, previous);
  }

  /** Of the keys that are gone only those from the `j`-th on are left, and no key from there on is missing. */
  ghost predicate KeysLeft(keys: set<string>, nextKeys: set<string>, window: seq<Entry>, j: nat) {
    && j <= |window| && keys <= nextKeys + KeysFrom(window, j)
    && forall h | j <= h < |window| :: window[h].key in keys
  }

  lemma KeysLeftAtFirst(keys: set<string>, nextKeys: set<string>, window: seq<Entry>)
    requires keys <= KeysFrom(window, 0) && forall h | 0 <= h < |window| :: window[h].key in keys
    ensures KeysLeft(keys, nextKeys, window, 0)
  {
  }

  lemma KeysLeftAfter(keys: set<string>, nextKeys: set<string>, window: seq<Entry>, j: nat)
    requires DistinctKeys(window) && j < |window| && KeysLeft(keys, nextKeys, window, j)
    ensures window[j].key in keys
    ensures KeysLeft(if window[j].key in nextKeys then keys else keys - {window[j].key}, nextKeys, window, j + 1)
  {
  }

  lemma NoKeysLeft(keys: set<string>, nextKeys: set<string>, window: seq<Entry>)
    requires KeysLeft(keys, nextKeys, window, |window|)
    ensures keys <= nextKeys
  {
  }

  method RemoveUnless(operations: seq<DeltaOperation>, keys: seq<string>, rows: seq<Row>, keyIndexes: map<string, nat>,
                      key: string, nextKeys: set<string>, ghost previous: seq<Entry>, ghost next: seq<Entry>)
    returns (operations': seq<DeltaOperation>, keys': seq<string>, rows': seq<Row>, keyIndexes': map<string, nat>)
    requires Indexed(keys, rows, keyIndexes) && key in keyIndexes && HasKey(previous, key) && IsKeySet(nextKeys, next)
    requires OnlyNeeded(operations, previous, next) && EditedBefore(operations, 0)
    requires forall o | o in operations :: o.RemoveOp? && o.key !in keyIndexes
    requires AllOld(keys, rows, 0, previous) && KeepsShared(previous, next, keyIndexes)
    ensures OnlyNeeded(operations', previous, next) && EditedBefore(operations', 0)
    ensures forall o | o in operations' :: o.RemoveOp? && o.key !in keyIndexes'
    ensures AllOld(keys', rows', 0, previous) && KeepsShared(previous, next, keyIndexes')
    requires ApplyOperations(previous, operations) == Some(Zip(keys, rows))
    ensures Indexed(keys', rows', keyIndexes')
    ensures keyIndexes'.Keys == if key in nextKeys then keyIndexes.Keys else keyIndexes.Keys - {key}
    ensures ApplyOperations(previous, operations') == Some(Zip(keys', rows'))
    ensures key in nextKeys ==> operations' == operations
  {
    if key in nextKeys {
      return operations, keys, rows, keyIndexes;
    }
    ApplyOneMore(previous, operations, RemoveOp(key), Zip(keys, rows));
    OneMoreNeeded(operations, RemoveOp(key), previous, next);
    OldAfterRemove(keys, rows, keyIndexes[key], previous);
    operations' := operations + [RemoveOp(key)];
    keys', rows', keyIndexes' := RemoveCurrent(keys, rows, keyIndexes, key);
  }

  /** Everything before `i` is in its place. */
  ghost predicate PlacedUpTo(keys: seq<string>, rows: seq<Row>, next: seq<Entry>, i: nat) {
    && i <= |next| && i <= |keys| == |rows|
    && forall h | 0 <= h < i :: keys[h] == next[h].key && rows[h] == next[h].row
  }

  lemma AllPlaced(keys: seq<string>, rows: seq<Row>, keyIndexes: map<string, nat>, next: seq<Entry>)
    requires Indexed(keys, rows, keyIndexes) && PlacedUpTo(keys, rows, next, |next|)
    requires forall k | k in keyIndexes :: HasKey(next, k)
    ensures Zip(keys, rows) == next
  {
    assert |keys| > |next| ==> HasKey(next, keys[|next|]);
  }

  /** Brings `next[index]` to its place, after all entries before it have been placed. */
  method PlaceEntry(operations: seq<DeltaOperation>, keys: seq<string>, rows: seq<Row>, keyIndexes: map<string, nat>,
                    next: seq<Entry>, index: nat, ghost previous: seq<Entry>)
    returns (operations': seq<DeltaOperation>, keys': seq<string>, rows': seq<Row>, keyIndexes': map<string, nat>)
    requires DistinctKeys(next) && index < |next|
    requires Indexed(keys, rows, keyIndexes) && PlacedUpTo(keys, rows, next, index)
    requires ApplyOperations(previous, operations) == Some(Zip(keys, rows))
    requires DistinctKeys(previous) && OnlyNeeded(operations, previous, next) && EditedBefore(operations, index)
    requires AllOld(keys, rows, index, previous) && KeepsShared(previous, next, keyIndexes)
    ensures OnlyNeeded(operations', previous, next) && EditedBefore(operations', index + 1)
    ensures AllOld(keys', rows', index + 1, previous) && KeepsShared(previous, next, keyIndexes')
    ensures Indexed(keys', rows', keyIndexes') && keyIndexes'.Keys == keyIndexes.Keys + {next[index].key}
    ensures PlacedUpTo(keys', rows', next, index + 1)
    ensures ApplyOperations(previous, operations') == Some(Zip(keys', rows'))
    ensures index < |keys| && keys[index] == next[index].key && rows[index] == next[index].row ==>
      operations' == operations && keys' == keys && rows' == rows
  {
    hide OnlyNeeded, Needed, ApplyOperations, KeepsShared, EditedBefore, Indexed;
    if next[index].key !in keyIndexes {
      operations', keys', rows', keyIndexes' := InsertNew(operations, keys, rows, keyIndexes, next, index, previous);
      SharedStay(previous, next, keyIndexes, keyIndexes');
      return;
    }
    operations', keys', rows', keyIndexes' := MoveToPlace(operations, keys, rows, keyIndexes, next, index, previous);
    SharedStay(previous, next, keyIndexes, keyIndexes');
    PlacedAfterUpdate(keys', rows', keyIndexes', next, index, previous);
    operations', rows' := UpdateCurrent(operations', keys', rows', index, previous, next);
  }

  /** Inserts `next[index]`, which the working copy does not have. */
  method InsertNew(operations: seq<DeltaOperation>, keys: seq<string>, rows: seq<Row>, keyIndexes: map<string, nat>,
                   next: seq<Entry>, index: nat, ghost previous: seq<Entry>)
    returns (operations': seq<DeltaOperation>, keys': seq<string>, rows': seq<Row>, keyIndexes': map<string, nat>)
    requires index < |next| && next[index].key !in keyIndexes
    requires Indexed(keys, rows, keyIndexes) && PlacedUpTo(keys, rows, next, index)
    requires ApplyOperations(previous, operations) == Some(Zip(keys, rows))
    requires OnlyNeeded(operations, previous, next) && EditedBefore(operations, index)
    requires AllOld(keys, rows, index, previous) && KeepsShared(previous, next, keyIndexes)
    ensures OnlyNeeded(operations', previous, next) && EditedBefore(operations', index + 1)
    ensures AllOld(keys', rows', index + 1, previous)
    ensures Indexed(keys', rows', keyIndexes') && keyIndexes'.Keys == keyIndexes.Keys + {next[index].key}
    ensures PlacedUpTo(keys', rows', next, index + 1)
    ensures ApplyOperations(previous, operations') == Some(Zip(keys', rows'))
    ensures !(index < |keys| && keys[index] == next[index].key)
  {
    hide OnlyNeeded, Needed, ApplyOperations, KeepsShared;
    var entry := next[index];
    keys', rows', keyIndexes' := InsertCurrent(keys, rows, keyIndexes, entry, index);
    ApplyOneMore(previous, operations, InsertOp(entry.key, entry.row, index), Zip(keys, rows));
    PlacedAfterInsert(keys, rows, next, index);
    OldAfterInsert(keys, rows, index, entry, previous);
    InsertIsNeeded(index, keyIndexes, previous, next);
    OneMoreNeeded(operations, InsertOp(entry.key, entry.row, index), previous, next);
    operations' := operations + [InsertOp(entry.key, entry.row, index)];
  }

  /** Moves the entry with the key of `next[index]` to its place, unless it is there. */
  method MoveToPlace(operations: seq<DeltaOperation>, keys: seq<string>, rows: seq<Row>, keyIndexes: map<string, nat>,
                     next: seq<Entry>, index: nat, ghost previous: seq<Entry>)
    returns (operations': seq<DeltaOperation>, keys': seq<string>, rows': seq<Row>, keyIndexes': map<string, nat>)
    requires DistinctKeys(next) && index < |next| && next[index].key in keyIndexes
    requires Indexed(keys, rows, keyIndexes) && PlacedUpTo(keys, rows, next, index)
    requires ApplyOperations(previous, operations) == Some(Zip(keys, rows))
    requires OnlyNeeded(operations, previous, next) && EditedBefore(operations, index)
    requires AllOld(keys, rows, index, previous)
    ensures OnlyNeeded(operations', previous, next) && EditedBefore(operations', index + 1)
    ensures UpdateOp(next[index].key, next[index].row, index) !in operations'
    ensures AllOld(keys', rows', index, previous)
    ensures Indexed(keys', rows', keyIndexes') && keyIndexes'.Keys == keyIndexes.Keys
    ensures PlacedUpTo(keys', rows', next, index) && index < |keys'| && keys'[index] == next[index].key
    ensures ApplyOperations(previous, operations') == Some(Zip(keys', rows'))
    ensures index < |keys| && keys[index] == next[index].key ==>
      operations' == operations && keys' == keys && rows' == rows
  {
    hide OnlyNeeded, Needed, ApplyOperations;
    var key, currentIndex := next[index].key, keyIndexes[next[index].key];
    if currentIndex == index {
      return operations, keys, rows, keyIndexes;
    }
    keys', rows', keyIndexes' := MoveCurrent(keys, rows, keyIndexes, currentIndex, index);
    ApplyOneMore(previous, operations, MoveOp(key, currentIndex, index), Zip(keys, rows));
    PlacedAfterMove(keys, rows, next, index, currentIndex);
    OldAfterMove(keys, rows, index, currentIndex, previous);
    MoveToPlaceIsNeeded(Entry(key, rows[currentIndex]), currentIndex, index, previous, next);
    OneMoreNeeded(operations, MoveOp(key, currentIndex, index), previous, next);
    operations' := operations + [MoveOp(key, currentIndex, index)];
  }

  lemma PlacedAfterUpdate(keys: seq<string>, rows: seq<Row>, keyIndexes: map<string, nat>, next: seq<Entry>, i: nat,
                          previous: seq<Entry>)
    requires Indexed(keys, rows, keyIndexes) && PlacedUpTo(keys, rows, next, i) && AllOld(keys, rows, i, previous)
    requires i < |keys| && i < |next| && keys[i] == next[i].key
    ensures Indexed(keys, rows[i := next[i].row], keyIndexes)
    ensures PlacedUpTo(keys, rows[i := next[i].row], next, i + 1)
    ensures AllOld(keys, rows[i := next[i].row], i + 1, previous)
  {
  }

  lemma OldAfterRemove(keys: seq<string>, rows: seq<Row>, i: nat, previous: seq<Entry>)
    requires AllOld(keys, rows, 0, previous) && i < |keys|
    ensures AllOld(RemoveAt(keys, i), RemoveAt(rows, i), 0, previous)
  {
    var after, afterRows := RemoveAt(keys, i), RemoveAt(rows, i);
    assert forall h | i <= h < |after| :: after[h] == keys[h + 1] && afterRows[h] == rows[h + 1];
  }

  lemma OldAfterInsert(keys: seq<string>, rows: seq<Row>, i: nat, entry: Entry, previous: seq<Entry>)
    requires AllOld(keys, rows, i, previous) && i <= |keys|
    ensures AllOld(InsertAt(keys, i, entry.key), InsertAt(rows, i, entry.row), i + 1, previous)
  {
    var after, afterRows := InsertAt(keys, i, entry.key), InsertAt(rows, i, entry.row);
    assert forall h | i < h < |after| :: after[h] == keys[h - 1] && afterRows[h] == rows[h - 1];
  }

  lemma MovedBack<T>(es: seq<T>, i: nat, from: nat)
    requires i <= from < |es|
    ensures
      var moved := InsertAt(RemoveAt(es, from), i, es[from]);
      && |moved| == |es| && moved[i] == es[from]
      && (forall h | i < h <= from :: moved[h] == es[h - 1])
      && forall h | from < h < |es| :: moved[h] == es[h]
  {
  }

  lemma OldAfterMove(keys: seq<string>, rows: seq<Row>, i: nat, from: nat, previous: seq<Entry>)
    requires AllOld(keys, rows, i, previous) && i <= from < |keys|
    ensures AllOld(InsertAt(RemoveAt(keys, from), i, keys[from]), InsertAt(RemoveAt(rows, from), i, rows[from]), i,
                   previous)
  {
    hide InsertAt, RemoveAt;
    MovedBack(keys, i, from);
    MovedBack(rows, i, from);
  }

  lemma SharedStay(previous: seq<Entry>, next: seq<Entry>, keyIndexes: map<string, nat>, more: map<string, nat>)
    requires KeepsShared(previous, next, keyIndexes) && keyIndexes.Keys <= more.Keys
    ensures KeepsShared(previous, next, more)
  {
  }

  lemma InsertIsNeeded(i: nat, keyIndexes: map<string, nat>, previous: seq<Entry>, next: seq<Entry>)
    requires KeepsShared(previous, next, keyIndexes) && i < |next| && next[i].key !in keyIndexes
    ensures Needed(InsertOp(next[i].key, next[i].row, i), previous, next)
  {
    assert HasKey(next, next[i].key);
  }

  lemma MoveToPlaceIsNeeded(held: Entry, from: nat, to: nat, previous: seq<Entry>, next: seq<Entry>)
    requires held in previous && from != to < |next| && next[to].key == held.key
    ensures Needed(MoveOp(held.key, from, to), previous, next)
  {
    var h :| 0 <= h < |previous| && previous[h] == held;
    assert previous[h].key == held.key;
  }

  lemma ZipUpdate(keys: seq<string>, rows: seq<Row>, i: nat, entry: Entry)
    requires |keys| == |rows| && i < |keys| && keys[i] == entry.key
    ensures ApplyOperation(Zip(keys, rows), UpdateOp(entry.key, entry.row, i)) == Some(Zip(keys, rows[i := entry.row]))
  {
    assert Zip(keys, rows)[i := entry] == Zip(keys, rows[i := entry.row]);
  }

  method UpdateCurrent(operations: seq<DeltaOperation>, keys: seq<string>, rows: seq<Row>, index: nat,
                       ghost previous: seq<Entry>, next: seq<Entry>)
    returns (operations': seq<DeltaOperation>, rows': seq<Row>)
    requires |keys| == |rows| && index < |keys| && index < |next| && keys[index] == next[index].key
    requires ApplyOperations(previous, operations) == Some(Zip(keys, rows))
    requires DistinctKeys(previous) && Entry(keys[index], rows[index]) in previous
    requires OnlyNeeded(operations, previous, next) && EditedBefore(operations, index + 1)
    requires UpdateOp(next[index].key, next[index].row, index) !in operations
    ensures rows' == rows[index := next[index].row]
    ensures ApplyOperations(previous, operations') == Some(Zip(keys, rows'))
    ensures OnlyNeeded(operations', previous, next) && EditedBefore(operations', index + 1)
    ensures rows[index] == next[index].row ==> operations' == operations
  {
    hide OnlyNeeded, Needed, ApplyOperations;
    var entry := next[index];
    if rows[index] != entry.row {
      ZipUpdate(keys, rows, index, entry);
      ApplyOneMore(previous, operations, UpdateOp(entry.key, entry.row, index), Zip(keys, rows));
      UpdateIsNeeded(Entry(keys[index], rows[index]), index, previous, next);
      OneMoreNeeded(operations, UpdateOp(entry.key, entry.row, index), previous, next);
      return operations + [UpdateOp(entry.key, entry.row, index)], rows[index := entry.row];
    }
    return operations, rows;
  }

  method GeneralDeltaOperations(previous: seq<Entry>, next: seq<Entry>, nextKeys: set<string>)
    returns (operations: seq<DeltaOperation>)
    requires DistinctKeys(previous) && DistinctKeys(next) && IsKeySet(nextKeys, next)
    ensures ApplyOperations(previous, operations) == Some(next) && OnlyNeeded(operations, previous, next)
    ensures previous == next ==> operations == []
  {
    hide OnlyNeeded, Needed, EditedBefore, AllOld, KeepsShared, Indexed, ApplyOperations;
    NothingIsNeeded(previous, next);
    var keys, rows, keyIndexes;
    operations, keys, rows, keyIndexes := RemoveGone(previous, nextKeys, next);
    for index := 0 to |next|
      invariant Indexed(keys, rows, keyIndexes) && keyIndexes.Keys <= nextKeys
      invariant PlacedUpTo(keys, rows, next, index)
      invariant ApplyOperations(previous, operations) == Some(Zip(keys, rows))
      invariant previous == next ==> operations == [] && Zip(keys, rows) == next
      invariant OnlyNeeded(operations, previous, next) && EditedBefore(operations, index)
      invariant AllOld(keys, rows, index, previous) && KeepsShared(previous, next, keyIndexes)
    {
      PlacedOrEdited(keys, rows, keyIndexes, next, index);
      operations, keys, rows, keyIndexes := PlaceEntry(operations, keys, rows, keyIndexes, next, index, previous);
    }
    KeysOfNext(keyIndexes, nextKeys, next);
    AllPlaced(keys, rows, keyIndexes, next);
  }

  lemma KeysOfNext(keyIndexes: map<string, nat>, nextKeys: set<string>, next: seq<Entry>)
    requires keyIndexes.Keys <= nextKeys && IsKeySet(nextKeys, next)
    ensures forall k | k in keyIndexes :: HasKey(next, k)
  {
  }

  /** Where nothing differs, the entry is in its place. */
  lemma PlacedOrEdited(keys: seq<string>, rows: seq<Row>, keyIndexes: map<string, nat>, next: seq<Entry>, i: nat)
    requires Indexed(keys, rows, keyIndexes) && i < |next|
    ensures Zip(keys, rows) == next ==> i < |keys| == |rows| && keys[i] == next[i].key && rows[i] == next[i].row
  {
    assert Zip(keys, rows) == next ==> Zip(keys, rows)[i] == next[i];
  }

  /** The operations that turn the previous window into the next one. Replaying them is accepted step by
      step and yields exactly the next window; there are none only when the windows are equal, none is idle, and one
      move is enough where one entry changed its place. */
  method DeltaOperations(previous: seq<Entry>, next: seq<Entry>) returns (operations: seq<DeltaOperation>)
    requires DistinctKeys(previous) && DistinctKeys(next)
    ensures ApplyOperations(previous, operations) == Some(next)
    ensures operations == [] <==> previous == next
    ensures OnlyNeeded(operations, previous, next)
    ensures IsSingleMove(previous, next) ==> MovesOnce(operations)
  {
    hide OnlyNeeded, IsMove;
    var singleMoveOperations := SingleMoveDeltaOperations(previous, next);
    if singleMoveOperations.Some? {
      return singleMoveOperations.value;
    }
    var nextKeys := KeySetOf(next);
    var replacementOperations := ReplacementDeltaOperations(previous, next, nextKeys);
    if replacementOperations.Some? {
      return replacementOperations.value;
    }
    operations := GeneralDeltaOperations(previous, next, nextKeys);
  }
}
