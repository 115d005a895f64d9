/** The shared, retained evaluation of a raw query and its incremental update from journal batches. */
module RetainedWindow {
  import opened Values
  import opened Sequences
  import opened Ranking
  import opened Rows

  /** The leading part of a query's view that an execution keeps between two versions. */
  datatype BaseEvaluation = BaseEvaluation(
    keyIndex: map<string, nat>,
    keys: seq<string>,
    retainedWindowFilled: bool,
    totalRows: int,
    version: nat,
    window: seq<Entry>
  )

  function RetainedWindowFilled(window: seq<Entry>, totalRows: int, limit: Option<nat>): bool {
    limit.None? || |window| >= Min(totalRows, limit.value)
  }

  /** How many entries beyond the base window are kept so that removals need no rescan. */
  function RetainedWindowLookahead(limit: Option<nat>): nat {
    if limit.None? || limit.value == 0 then 0
    else if limit.value >= 128 then 64 else 1
  }

  function RetainedLimit(base: Option<nat>): Option<nat> {
    if base.None? then None else Some(base.value + RetainedWindowLookahead(base))
  }

  ghost predicate IndexesKeys(keyIndex: map<string, nat>, window: seq<Entry>) {
    && (forall i | 0 <= i < |window| :: window[i].key in keyIndex && keyIndex[window[i].key] == i)
    && (forall k | k in keyIndex :: keyIndex[k] < |window| && window[keyIndex[k]].key == k)
  }

  /** `w` is a leading part of the ranking of `all`, long enough for every window inside the base limit
      and no longer than the retained limit; without a limit it is the whole ranking. */
  ghost predicate Leads(w: seq<Entry>, all: set<Entry>, compare: (Entry, Entry) -> int, base: Option<nat>) {
    && IsTop(w, all, compare)
    && (base.None? ==> |w| == |all|)
    && (base.Some? ==> Min(|all|, base.value) <= |w| <= RetainedLimit(base).value)
  }

  /** What an evaluation kept for the base limit `base` promises about the table it was made for: its
      window leads the query's view, its total is exact, and its bookkeeping agrees with its window. */
  ghost predicate Current(e: BaseEvaluation, rows: Table, q: Query, base: Option<nat>) {
    && e.totalRows == |Matching(rows, q.matches)|
    && Leads(e.window, Matching(rows, q.matches), q.compare, base)
    && e.retainedWindowFilled == RetainedWindowFilled(e.window, e.totalRows, RetainedLimit(base))
    && e.keys == KeysOf(e.window)
    && IndexesKeys(e.keyIndex, e.window)
  }

  // ----- Following the changes -----

  /** What the update has gathered after some changes: the retained entries as replaced so far, which
      of them are gone, and the entries that newly match. */
  datatype Pending = Pending(
    totalRows: int,
    entries: seq<Entry>,
    removed: set<string>,
    inserted: map<string, Entry>,
    replaced: bool
  )

  ghost predicate Kept(e: BaseEvaluation, p: Pending, k: string) {
    k in e.keyIndex && k !in p.removed
  }

  /** The gathered state accounts for every row of `rows` that matches: it is a retained entry, a newly
      matching one, or a row outside the retained window that has not changed at all. */
  ghost predicate Tracks(e: BaseEvaluation, p: Pending, before: Table, rows: Table, q: Query, limit: Option<nat>) {
    && IndexesKeys(e.keyIndex, e.window)
    && |p.entries| == |e.window|
    && (forall i | 0 <= i < |e.window| :: p.entries[i].key == e.window[i].key)
    && (forall k | k in p.removed :: k in e.keyIndex)
    && (forall k | k in p.inserted ::
      !Kept(e, p, k) && p.inserted[k].key == k && Selected(p.inserted[k], rows, q.matches))
    && (forall k | Kept(e, p, k) :: Selected(p.entries[e.keyIndex[k]], rows, q.matches))
    && (forall k | k in rows :: Accounted(e, p, before, rows, q, k))
    && (limit.Some? ==> forall i | 0 <= i < |e.window| && e.window[i].key !in p.removed :: NotBehind(e, p, q, i))
    && (!p.replaced ==> p.entries == e.window)
  }

  ghost predicate Accounted(e: BaseEvaluation, p: Pending, before: Table, rows: Table, q: Query, k: string)
    requires k in rows
  {
    || !q.matches(rows[k])
    || Kept(e, p, k)
    || k in p.inserted
    || (k !in e.keyIndex && k in before && before[k] == rows[k])
  }

  ghost predicate NotBehind(e: BaseEvaluation, p: Pending, q: Query, i: nat)
    requires i < |e.window| && |p.entries| == |e.window|
  {
    q.compare(p.entries[i], e.window[i]) <= 0
  }

  lemma TracksIrrelevantChange(e: BaseEvaluation, p: Pending, before: Table, rows: Table, q: Query, limit: Option<nat>,
                               change: Change)
    requires Tracks(e, p, before, rows, q, limit) && Truthful(rows, change)
    requires change.previous.Some? ==> !q.matches(change.previous.value)
    requires change.next.Some? ==> !q.matches(change.next.value)
    ensures Tracks(e, p, before, ApplyChange(rows, change), q, limit)
  {
  }

  lemma InsertedEntryAccounted(e: BaseEvaluation, p: Pending, before: Table, rows: Table, q: Query, limit: Option<nat>,
                               change: Change, p': Pending)
    requires Tracks(e, p, before, rows, q, limit) && Truthful(rows, change)
    requires change.next.Some? && q.matches(change.next.value)
    requires p'.entries == p.entries && p'.removed == p.removed
    requires p'.inserted == p.inserted[change.key := Entry(change.key, change.next.value)]
    ensures forall k | k in ApplyChange(rows, change) :: Accounted(e, p', before, ApplyChange(rows, change), q, k)
  {
    forall k | k in ApplyChange(rows, change)
      ensures Accounted(e, p', before, ApplyChange(rows, change), q, k)
    {
      assert k != change.key ==> Accounted(e, p, before, rows, q, k);
    }
  }

  lemma TracksInsertedEntry(e: BaseEvaluation, p: Pending, before: Table, rows: Table, q: Query, limit: Option<nat>,
                            change: Change, p': Pending)
    requires Tracks(e, p, before, rows, q, limit) && Truthful(rows, change)
    requires change.next.Some? && q.matches(change.next.value)
    requires change.key in p.inserted || change.previous.None? || !q.matches(change.previous.value)
    requires p'.entries == p.entries && p'.removed == p.removed && p'.replaced == p.replaced
    requires p'.inserted == p.inserted[change.key := Entry(change.key, change.next.value)]
    ensures Tracks(e, p', before, ApplyChange(rows, change), q, limit)
  {
    hide Accounted;
    InsertedEntryAccounted(e, p, before, rows, q, limit, change, p');
  }

  lemma TracksReplacedEntry(e: BaseEvaluation, p: Pending, before: Table, rows: Table, q: Query, limit: Option<nat>,
                            change: Change, p': Pending)
    requires IsRowOrder(q.compare)
    requires Tracks(e, p, before, rows, q, limit) && Truthful(rows, change)
    requires change.next.Some? && q.matches(change.next.value)
    requires change.key in e.keyIndex && change.key !in p.removed
    requires
      var i := e.keyIndex[change.key];
      && p'.entries == p.entries[i := Entry(change.key, change.next.value)]
      && (limit.Some? ==> q.compare(p'.entries[i], p.entries[i]) <= 0)
    requires p'.removed == p.removed && p'.inserted == p.inserted && p'.replaced
    ensures Tracks(e, p', before, ApplyChange(rows, change), q, limit)
  {
    var i := e.keyIndex[change.key];
    assert Chain(p'.entries[i], p.entries[i], e.window[i]);
    forall k | k in e.keyIndex && k !in p'.removed
      ensures Selected(p'.entries[e.keyIndex[k]], ApplyChange(rows, change), q.matches)
    {
      assert Selected(p.entries[e.keyIndex[k]], rows, q.matches);
    }
  }

  lemma TracksRemovedEntry(e: BaseEvaluation, p: Pending, before: Table, rows: Table, q: Query, limit: Option<nat>,
                           change: Change, p': Pending)
    requires Tracks(e, p, before, rows, q, limit) && Truthful(rows, change)
    requires change.next.Some? ==> !q.matches(change.next.value)
    requires p'.entries == p.entries && p'.replaced == p.replaced && p'.inserted == p.inserted - {change.key}
    requires p'.removed == if change.key in e.keyIndex then p.removed + {change.key} else p.removed
    ensures Tracks(e, p', before, ApplyChange(rows, change), q, limit)
  {
    hide Accounted;
    RemovedEntryAccounted(e, p, before, rows, q, limit, change, p');
  }

  lemma RemovedEntryAccounted(e: BaseEvaluation, p: Pending, before: Table, rows: Table, q: Query, limit: Option<nat>,
                              change: Change, p': Pending)
    requires Tracks(e, p, before, rows, q, limit) && Truthful(rows, change)
    requires change.next.Some? ==> !q.matches(change.next.value)
    requires p'.entries == p.entries && p'.inserted == p.inserted - {change.key}
    requires p'.removed == if change.key in e.keyIndex then p.removed + {change.key} else p.removed
    ensures forall k | k in ApplyChange(rows, change) :: Accounted(e, p', before, ApplyChange(rows, change), q, k)
  {
    forall k | k in ApplyChange(rows, change)
      ensures Accounted(e, p', before, ApplyChange(rows, change), q, k)
    {
      assert k != change.key ==> Accounted(e, p, before, rows, q, k);
    }
  }

  // ----- When the changes can be followed -----

  predicate NowMatches(row: Option<Row>, matches: Row -> bool) {
    row.Some? && matches(row.value)
  }

  /** The key's row matched before the changes and after each of them. */
  ghost predicate StillMatches(k: string, before: Table, changes: seq<Change>, matches: Row -> bool) {
    && NowMatches(Lookup(before, k), matches)
    && forall c | c in changes && c.key == k :: NowMatches(c.next, matches)
  }

  /** The change can be followed: a row that has matched all along and goes on matching is retained and, in a
      bounded window, does not move back. */
  ghost predicate Followable(e: BaseEvaluation, before: Table, earlier: seq<Change>, change: Change, q: Query,
                             limit: Option<nat>)
  {
    NowMatches(change.previous, q.matches) && NowMatches(change.next, q.matches)
    && StillMatches(change.key, before, earlier, q.matches) ==>
      && change.key in e.keyIndex
      && (limit.Some? ==>
            q.compare(Entry(change.key, change.next.value), Entry(change.key, change.previous.value)) <= 0)
  }

  ghost predicate AllFollowable(e: BaseEvaluation, before: Table, changes: seq<Change>, q: Query, limit: Option<nat>) {
    forall i | 0 <= i < |changes| :: Followable(e, before, changes[..i], changes[i], q, limit)
  }

  /** The gathered state says which rows have matched all along. */
  ghost predicate Reflects(e: BaseEvaluation, p: Pending, before: Table, rows: Table, changes: seq<Change>,
                           matches: Row -> bool)
  {
    && (forall k | StillMatches(k, before, changes, matches) :: NowMatches(Lookup(rows, k), matches))
    && (forall k | k in e.keyIndex :: k in p.removed <==> !StillMatches(k, before, changes, matches))
    && (forall k :: k in p.inserted <==>
      NowMatches(Lookup(rows, k), matches) && !StillMatches(k, before, changes, matches))
  }

  lemma ReflectsInitially(e: BaseEvaluation, before: Table, q: Query, base: Option<nat>)
    requires Current(e, before, q, base)
    ensures Reflects(e, Pending(e.totalRows, e.window, {}, map[], false), before, before, [], q.matches)
  {
    forall k | k in e.keyIndex
      ensures StillMatches(k, before, [], q.matches)
    {
      assert e.window[e.keyIndex[k]] in e.window;
      assert Selected(e.window[e.keyIndex[k]], before, q.matches);
    }
  }

  lemma StillMatchesFurther(k: string, before: Table, changes: seq<Change>, change: Change, matches: Row -> bool)
    ensures StillMatches(k, before, changes + [change], matches) <==>
      StillMatches(k, before, changes, matches) && (change.key == k ==> NowMatches(change.next, matches))
  {
    assert forall c :: c in changes + [change] <==> c in changes || c == change;
  }

  lemma ReflectsFurther(e: BaseEvaluation, p: Pending, before: Table, rows: Table, changes: seq<Change>,
                        change: Change, matches: Row -> bool, p': Pending)
    requires Reflects(e, p, before, rows, changes, matches) && Truthful(rows, change)
    requires p'.removed ==
      if NowMatches(change.previous, matches) && !NowMatches(change.next, matches) && change.key in e.keyIndex then
        p.removed + {change.key}
      else p.removed
    requires forall k | k != change.key :: k in p'.inserted <==> k in p.inserted
    requires change.key in p'.inserted <==>
      NowMatches(change.next, matches) && (NowMatches(change.previous, matches) ==> change.key in p.inserted)
    ensures Reflects(e, p', before, ApplyChange(rows, change), changes + [change], matches)
  {
    hide StillMatches;
    var rows' := ApplyChange(rows, change);
    forall k
      ensures StillMatches(k, before, changes + [change], matches) <==>
        StillMatches(k, before, changes, matches) && (change.key == k ==> NowMatches(change.next, matches))
      ensures Lookup(rows', k) == if k == change.key then change.next else Lookup(rows, k)
    {
      StillMatchesFurther(k, before, changes, change, matches);
    }
    assert change.previous == Lookup(rows, change.key);
  }

  /** The in-place replacement of a retained entry, refused when a bounded window could lose the entry. */
  method ReplaceRetainedMatchingEntryAtIndex(entries: seq<Entry>, previousIndex: nat, key: string, row: Row,
                                             compare: (Entry, Entry) -> int, limit: Option<nat>)
    returns (replaced: Option<seq<Entry>>)
    ensures replaced.Some? <==>
      && previousIndex < |entries| && entries[previousIndex].key == key
      && (limit.Some? ==> compare(Entry(key, row), entries[previousIndex]) <= 0)
    ensures replaced.Some? ==> replaced.value == entries[previousIndex := Entry(key, row)]
  {
    if previousIndex >= |entries| || entries[previousIndex].key != key {
      return None;
    }
    var nextEntry := Entry(key, row);
    if limit.Some? && compare(nextEntry, entries[previousIndex]) > 0 {
      return None;
    }
    return Some(entries[previousIndex := nextEntry]);
  }

  /** Accounts for one change; `None` when only a rescan can tell the new window. */
  method FollowChange(e: BaseEvaluation, p: Pending, change: Change, q: Query, limit: Option<nat>, ghost before: Table,
                      ghost rows: Table, ghost earlier: seq<Change>)
    returns (result: Option<Pending>)
    requires IsRowOrder(q.compare) && limit != Some(0)
    requires Tracks(e, p, before, rows, q, limit) && Truthful(rows, change)
    requires Reflects(e, p, before, rows, earlier, q.matches)
    ensures result.Some? <==> Followable(e, before, earlier, change, q, limit)
    ensures result.Some? ==>
      Reflects(e, result.value, before, ApplyChange(rows, change), earlier + [change], q.matches)
    ensures result.Some? ==> Tracks(e, result.value, before, ApplyChange(rows, change), q, limit)
    ensures result.Some? ==>
      result.value.totalRows - p.totalRows ==
        |Matching(ApplyChange(rows, change), q.matches)| - |Matching(rows, q.matches)|
    ensures limit.None? && (forall x | x in Matching(before, q.matches) :: x in e.window) ==> result.Some?
  {
    hide IsRowOrder, TotalOn, StillMatches, Reflects, Tracks;
    MatchingAfterChange(rows, change, q.matches);
    KnownOfKey(e, p, change, q, limit, before, rows, earlier);
    var previousMatches := NowMatches(change.previous, q.matches);
    var nextMatches := NowMatches(change.next, q.matches);
    var p' := p;
    if previousMatches && nextMatches {
      if change.key in p.inserted {
        p' := p.(inserted := p.inserted[change.key := Entry(change.key, change.next.value)]);
        TracksInsertedEntry(e, p, before, rows, q, limit, change, p');
      } else {
        if change.key !in e.keyIndex || change.key in p.removed {
          return None;
        }
        var replacement := ReplaceRetainedMatchingEntryAtIndex(
          p.entries, e.keyIndex[change.key], change.key, change.next.value, q.compare, limit);
        if replacement.None? {
          return None;
        }
        p' := p.(entries := replacement.value, replaced := true);
        TracksReplacedEntry(e, p, before, rows, q, limit, change, p');
      }
    } else if previousMatches {
      var removed := if change.key in e.keyIndex then p.removed + {change.key} else p.removed;
      p' := p.(totalRows := p.totalRows - 1, inserted := p.inserted - {change.key}, removed := removed);
      TracksRemovedEntry(e, p, before, rows, q, limit, change, p');
    } else if nextMatches {
      p' := p.(totalRows := p.totalRows + 1,
               inserted := p.inserted[change.key := Entry(change.key, change.next.value)]);
      TracksInsertedEntry(e, p, before, rows, q, limit, change, p');
    } else {
      TracksIrrelevantChange(e, p, before, rows, q, limit, change);
    }
    ReflectsFurther(e, p, before, rows, earlier, change, q.matches, p');
    return Some(p');
  }

  /** What the gathered state says of the changed key. */
  lemma KnownOfKey(e: BaseEvaluation, p: Pending, change: Change, q: Query, limit: Option<nat>, before: Table,
                   rows: Table, earlier: seq<Change>)
    requires Tracks(e, p, before, rows, q, limit) && Truthful(rows, change)
    requires Reflects(e, p, before, rows, earlier, q.matches)
    ensures change.key in p.inserted <==>
      NowMatches(change.previous, q.matches) && !StillMatches(change.key, before, earlier, q.matches)
    ensures change.key in e.keyIndex ==>
      (change.key in p.removed <==> !StillMatches(change.key, before, earlier, q.matches))
    ensures change.key in e.keyIndex && change.key !in p.removed && change.previous.Some? ==>
      && e.keyIndex[change.key] < |p.entries|
      && p.entries[e.keyIndex[change.key]] == Entry(change.key, change.previous.value)
    ensures StillMatches(change.key, before, earlier, q.matches) && change.key !in e.keyIndex ==>
      exists x :: x in Matching(before, q.matches) && x !in e.window
  {
    assert Kept(e, p, change.key) ==> Selected(p.entries[e.keyIndex[change.key]], rows, q.matches);
    if StillMatches(change.key, before, earlier, q.matches) && change.key !in e.keyIndex {
      var x := Entry(change.key, before[change.key]);
      assert x in Matching(before, q.matches) && x !in e.window;
    }
  }

  // ----- The new window -----

  ghost function KeptEntries(p: Pending): (kept: set<Entry>)
    ensures forall x :: x in kept <==> x in p.entries && x.key !in p.removed
  {
    set x | x in p.entries && x.key !in p.removed
  }

  ghost function InsertedEntries(p: Pending): (inserted: set<Entry>)
    ensures forall x :: x in inserted <==> x.key in p.inserted && p.inserted[x.key] == x
  {
    set x | x in p.inserted.Values && x.key in p.inserted && p.inserted[x.key] == x
  }

  /** The entries a query matches that the update has not gathered: all of them matched before, outside
      the retained window, and have not changed. */
  ghost predicate IsOutside(y: Entry, e: BaseEvaluation, before: Table, q: Query) {
    y !in e.window && y in Matching(before, q.matches)
  }

  lemma GatheredEntries(e: BaseEvaluation, p: Pending, before: Table, rows: Table, q: Query, limit: Option<nat>)
    requires Tracks(e, p, before, rows, q, limit)
    ensures KeptEntries(p) <= Matching(rows, q.matches) && InsertedEntries(p) <= Matching(rows, q.matches)
    ensures KeptEntries(p) !! InsertedEntries(p)
    ensures forall y | y in Matching(rows, q.matches) && y !in KeptEntries(p) && y !in InsertedEntries(p) ::
      IsOutside(y, e, before, q)
  {
    forall x | x in KeptEntries(p)
      ensures Selected(x, rows, q.matches) && x !in InsertedEntries(p)
    {
      var i :| 0 <= i < |p.entries| && p.entries[i] == x;
      assert e.keyIndex[e.window[i].key] == i && Kept(e, p, x.key);
    }
    forall y | y in Matching(rows, q.matches) && y !in KeptEntries(p) && y !in InsertedEntries(p)
      ensures IsOutside(y, e, before, q)
    {
      assert Accounted(e, p, before, rows, q, y.key);
      assert Selected(y, before, q.matches);
    }
  }

  lemma OutsideComesLater(e: BaseEvaluation, p: Pending, before: Table, rows: Table, q: Query, base: Option<nat>,
                          x: Entry, y: Entry)
    requires IsRowOrder(q.compare) && Current(e, before, q, base)
    requires Tracks(e, p, before, rows, q, RetainedLimit(base))
    requires x in KeptEntries(p) && IsOutside(y, e, before, q)
    ensures q.compare(x, y) < 0
  {
    if base.None? {
      UnboundedHasNoOutside(e, before, q, y);
    } else {
      var i :| 0 <= i < |p.entries| && p.entries[i] == x;
      assert NotBehind(e, p, q, i);
      assert e.window[i] in e.window;
      RowOrderChains(q.compare, x, e.window[i], y);
    }
  }

  lemma UnboundedHasNoOutside(e: BaseEvaluation, before: Table, q: Query, y: Entry)
    requires IsRowOrder(q.compare) && Current(e, before, q, None)
    ensures !IsOutside(y, e, before, q)
  {
    MatchingIsTotal(before, q);
    WholeWindowHasAll(e.window, Matching(before, q.matches), q.compare);
  }

  lemma WholeWindowHasAll(w: seq<Entry>, all: set<Entry>, compare: (Entry, Entry) -> int)
    requires TotalOn(compare, all) && IsTop(w, all, compare) && |w| == |all|
    ensures forall y :: y in w <==> y in all
  {
    TopIsPrefix(w, all, compare);
  }

  /** The entries that are not gone, in their listed order. */
  function Remaining(entries: seq<Entry>, removed: set<string>): seq<Entry> {
    if entries == [] then []
    else if entries[0].key in removed then Remaining(entries[1..], removed)
    else [entries[0]] + Remaining(entries[1..], removed)
  }

  lemma {:induction false} RemainingMembers(entries: seq<Entry>, removed: set<string>)
    ensures forall x :: x in Remaining(entries, removed) <==> x in entries && x.key !in removed
    ensures NoDuplicates(entries) ==> NoDuplicates(Remaining(entries, removed))
    ensures |Remaining(entries, removed)| <= |entries|
  {
    if entries != [] {
      RemainingMembers(entries[1..], removed);
    }
  }

  lemma {:induction false} RemainingKeepsOrder(entries: seq<Entry>, removed: set<string>,
                                               compare: (Entry, Entry) -> int)
    requires Sorted(entries, compare)
    ensures Sorted(Remaining(entries, removed), compare)
  {
    if entries != [] {
      RemainingKeepsOrder(entries[1..], removed, compare);
      RemainingMembers(entries[1..], removed);
      if entries[0].key !in removed {
        forall x | x in Remaining(entries[1..], removed)
          ensures compare(entries[0], x) < 0
        {
          var i :| 0 <= i < |entries[1..]| && entries[1..][i] == x;
          assert x == entries[i + 1];
        }
        PrependKeepsOrder(entries[0], Remaining(entries[1..], removed), compare);
      }
    }
  }

  /** The order in which the update sorts entries: by the rows now stored under their keys, or by the
      entries' own rows when a key is not stored. */
  function RetainedEntryComparator(stored: Table, q: Query): (Entry, Entry) -> int {
    (left: Entry, right: Entry) =>
      if left.key in stored && right.key in stored then
        q.compare(Entry(left.key, stored[left.key]), Entry(right.key, stored[right.key]))
      else q.compare(left, right)
  }

  ghost predicate AgreeOn(f: (Entry, Entry) -> int, g: (Entry, Entry) -> int, entries: set<Entry>) {
    forall a, b {:trigger f(a, b)} | a in entries && b in entries :: f(a, b) == g(a, b)
  }

  lemma ComparatorAgrees(stored: Table, q: Query)
    ensures AgreeOn(RetainedEntryComparator(stored, q), q.compare, Matching(stored, q.matches))
  {
  }

  /** Sorting entries that are all current ranks them by the query's own comparator. */
  lemma SortRetained(es: seq<Entry>, s: set<Entry>, all: set<Entry>, compareRetained: (Entry, Entry) -> int,
                     compare: (Entry, Entry) -> int)
    requires TotalOn(compare, s) && NoDuplicates(es) && AgreeOn(compareRetained, compare, all)
    requires s <= all && forall x :: x in es <==> x in s
    ensures SortBy(es, compareRetained) == Ranked(s, compare)
  {
    SortByAgrees(es, compareRetained, compare);
    SortByRanks(es, s, compare);
  }

  lemma EntriesAreDistinct(e: BaseEvaluation, p: Pending, before: Table, rows: Table, q: Query, limit: Option<nat>)
    requires Tracks(e, p, before, rows, q, limit)
    ensures NoDuplicates(p.entries)
  {
    forall i, j | 0 <= i < j < |p.entries|
      ensures p.entries[i] != p.entries[j]
    {
      assert e.keyIndex[e.window[i].key] == i && e.keyIndex[e.window[j].key] == j;
    }
  }

  /** The retained entries that remain, ranked. */
  lemma RemainingIsRanked(e: BaseEvaluation, p: Pending, before: Table, rows: Table, q: Query, base: Option<nat>,
                          compareRetained: (Entry, Entry) -> int, w: seq<Entry>)
    requires IsRowOrder(q.compare) && Current(e, before, q, base)
    requires Tracks(e, p, before, rows, q, RetainedLimit(base))
    requires AgreeOn(compareRetained, q.compare, Matching(rows, q.matches))
    requires
      var kept := Remaining(p.entries, p.removed);
      w == if p.replaced then SortBy(kept, compareRetained) else kept
    ensures TotalOn(q.compare, KeptEntries(p))
    ensures w == Ranked(KeptEntries(p), q.compare)
  {
    var kept := Remaining(p.entries, p.removed);
    EntriesAreDistinct(e, p, before, rows, q, RetainedLimit(base));
    RemainingMembers(p.entries, p.removed);
    GatheredEntries(e, p, before, rows, q, RetainedLimit(base));
    MatchingIsTotal(rows, q);
    TotalOnSubset(q.compare, Matching(rows, q.matches), KeptEntries(p));
    SortRetained(kept, KeptEntries(p), Matching(rows, q.matches), compareRetained, q.compare);
    if !p.replaced {
      RemainingKeepsOrder(p.entries, p.removed, q.compare);
      SortedListingIsRanked(kept, KeptEntries(p), q.compare);
    }
  }

  // ----- What the gathered entries say about the new view -----

  /** Seen from the new view `all`: the remaining retained entries come before everything that was not
      gathered; nothing is missing when there is no limit; and if something is missing although nothing
      retained is gone from a full window, that window holds as many entries as it may. */
  ghost predicate Gathered(kept: set<Entry>, inserted: set<Entry>, all: set<Entry>, compare: (Entry, Entry) -> int,
                           base: Option<nat>, filledAndWhole: bool)
  {
    && kept <= all && inserted <= all && kept !! inserted
    && (forall x, y | x in kept && y in all && y !in kept + inserted :: compare(x, y) < 0)
    && (base.None? ==> all == kept + inserted)
    && (base.Some? ==> |kept| <= RetainedLimit(base).value)
    && (base.Some? && filledAndWhole ==> all == kept + inserted || |kept| == RetainedLimit(base).value)
  }

  lemma EntriesAreGathered(e: BaseEvaluation, p: Pending, before: Table, rows: Table, q: Query, base: Option<nat>)
    requires IsRowOrder(q.compare) && Current(e, before, q, base)
    requires Tracks(e, p, before, rows, q, RetainedLimit(base))
    ensures Gathered(KeptEntries(p), InsertedEntries(p), Matching(rows, q.matches), q.compare, base,
                     e.retainedWindowFilled && p.removed == {})
  {
    var kept, inserted, all := KeptEntries(p), InsertedEntries(p), Matching(rows, q.matches);
    GatheredEntries(e, p, before, rows, q, RetainedLimit(base));
    forall x, y | x in kept && y in all && y !in kept + inserted
      ensures q.compare(x, y) < 0
    {
      OutsideComesLater(e, p, before, rows, q, base, x, y);
    }
    ElementsAtMost(p.entries);
    SubsetSize(kept, Elements(p.entries));
    if all != kept + inserted {
      SomethingOutside(kept, inserted, all);
      var y :| y in all && y !in kept + inserted;
      MissingMeansCut(e, p, before, rows, q, base, y);
    }
  }

  lemma SomethingOutside(kept: set<Entry>, inserted: set<Entry>, all: set<Entry>)
    requires kept <= all && inserted <= all && all != kept + inserted
    ensures exists y :: y in all && y !in kept + inserted
  {
  }

  lemma MissingMeansCut(e: BaseEvaluation, p: Pending, before: Table, rows: Table, q: Query, base: Option<nat>,
                        y: Entry)
    requires IsRowOrder(q.compare) && Current(e, before, q, base)
    requires Tracks(e, p, before, rows, q, RetainedLimit(base)) && IsOutside(y, e, before, q)
    ensures base.Some?
    ensures e.retainedWindowFilled && p.removed == {} ==> |KeptEntries(p)| >= RetainedLimit(base).value
  {
    if base.None? {
      UnboundedHasNoOutside(e, before, q, y);
    } else if e.retainedWindowFilled && p.removed == {} {
      FilledWindowReaches(e, p, before, rows, q, base, y);
    }
  }

  /** If some matching row lies outside a full window, the window holds as many entries as it may. */
  lemma FilledWindowReaches(e: BaseEvaluation, p: Pending, before: Table, rows: Table, q: Query, base: Option<nat>,
                            y: Entry)
    requires IsRowOrder(q.compare) && Current(e, before, q, base)
    requires Tracks(e, p, before, rows, q, RetainedLimit(base))
    requires p.removed == {} && e.retainedWindowFilled && IsOutside(y, e, before, q)
    ensures base.Some? && |KeptEntries(p)| >= RetainedLimit(base).value
  {
    AllKeptCount(e, p, before, rows, q, RetainedLimit(base));
    MatchingIsTotal(before, q);
    TopIsPrefix(e.window, Matching(before, q.matches), q.compare);
    if |e.window| == e.totalRows {
      WholeWindowHasAll(e.window, Matching(before, q.matches), q.compare);
    }
  }

  lemma AllKeptCount(e: BaseEvaluation, p: Pending, before: Table, rows: Table, q: Query, limit: Option<nat>)
    requires Tracks(e, p, before, rows, q, limit) && p.removed == {}
    ensures |KeptEntries(p)| == |e.window|
  {
    EntriesAreDistinct(e, p, before, rows, q, limit);
    NoDuplicatesCount(p.entries);
    assert KeptEntries(p) == Elements(p.entries);
  }

  /** Without new entries the remaining retained entries lead the new view. */
  lemma RemainingLeads(kept: set<Entry>, all: set<Entry>, compare: (Entry, Entry) -> int, base: Option<nat>, f: bool)
    requires TotalOn(compare, all) && Gathered(kept, {}, all, compare, base, f)
    requires base.Some? ==> |kept| >= Min(|all|, base.value)
    ensures TotalOn(compare, kept) && Leads(Ranked(kept, compare), all, compare, base)
  {
    TotalOnSubset(compare, all, kept);
    assert kept + {} == kept;
  }

  /** When nothing retained is gone and the window was full, merging the new entries and cutting the
      list at the retained limit leads the new view. */
  lemma FilledMergeLeads(kept: set<Entry>, inserted: set<Entry>, all: set<Entry>, compare: (Entry, Entry) -> int,
                         base: Option<nat>, n: nat)
    requires TotalOn(compare, all) && Gathered(kept, inserted, all, compare, base, true) && base.Some?
    requires |kept| >= Min(|all|, base.value)
    requires n == Min(RetainedLimit(base).value, |kept + inserted|)
    ensures TotalOn(compare, kept + inserted) && Leads(Ranked(kept + inserted, compare)[..n], all, compare, base)
  {
    var merged := kept + inserted;
    TotalOnSubset(compare, all, merged);
    SubsetSize(kept, merged);
    forall x, y | x in Ranked(merged, compare)[..n] && y in all && y !in merged
      ensures compare(x, y) < 0
    {
      PrefixReaches(merged, kept, compare, n, x);
      var k :| k in kept && compare(x, k) <= 0;
      Chains(compare, all, x, k, y);
    }
    PrefixIsTopOfMore(merged, all, compare, n);
  }

  ghost function UpTo(entries: set<Entry>, tail: Entry, compare: (Entry, Entry) -> int): set<Entry> {
    set z | z in entries && compare(z, tail) <= 0
  }

  /** When retained entries are gone, only entries up to the last remaining one are sure to lead. */
  lemma TailMergeLeads(kept: set<Entry>, inserted: set<Entry>, all: set<Entry>, compare: (Entry, Entry) -> int,
                       base: Option<nat>, tail: Entry, n: nat)
    requires TotalOn(compare, all) && Gathered(kept, inserted, all, compare, base, false) && base.Some?
    requires |kept| >= Min(|all|, base.value)
    requires tail in kept && forall x | x in kept :: compare(x, tail) <= 0
    requires n == Min(RetainedLimit(base).value, |kept| + |UpTo(inserted, tail, compare)|)
    ensures TotalOn(compare, kept + inserted) && n <= |kept + inserted|
    ensures Leads(Ranked(kept + inserted, compare)[..n], all, compare, base)
  {
    var merged := kept + inserted;
    TotalOnSubset(compare, all, merged);
    PrefixStaysUpToTail(kept, inserted, compare, tail, n);
    forall x, y | x in Ranked(merged, compare)[..n] && y in all && y !in merged
      ensures compare(x, y) < 0
    {
      Chains(compare, all, x, tail, y);
    }
    PrefixIsTopOfMore(merged, all, compare, n);
  }

  /** A prefix of the merged list no longer than the number of entries up to the tail stays up to it. */
  lemma PrefixStaysUpToTail(kept: set<Entry>, inserted: set<Entry>, compare: (Entry, Entry) -> int, tail: Entry, n: nat)
    requires TotalOn(compare, kept + inserted) && kept !! inserted
    requires tail in kept && forall x | x in kept :: compare(x, tail) <= 0
    requires n <= |kept| + |UpTo(inserted, tail, compare)|
    ensures n <= |kept + inserted|
    ensures forall x | x in Ranked(kept + inserted, compare)[..n] :: compare(x, tail) <= 0
  {
    var merged, sure := kept + inserted, kept + UpTo(inserted, tail, compare);
    assert |sure| == |kept| + |UpTo(inserted, tail, compare)|;
    forall x, y | x in sure && y in merged && y !in sure
      ensures compare(x, y) < 0
    {
      Chains(compare, merged, x, tail, y);
    }
    DownSetIsPrefix(merged, sure, compare);
    var r := Ranked(merged, compare);
    forall x | x in r[..n]
      ensures compare(x, tail) <= 0
    {
      assert x in r[..|sure|];
    }
  }

  lemma LastIsWorst(s: set<Entry>, compare: (Entry, Entry) -> int)
    requires TotalOn(compare, s) && s != {}
    ensures var r := Ranked(s, compare); r[|r| - 1] in s && forall x | x in s :: compare(x, r[|r| - 1]) <= 0
  {
    var r := Ranked(s, compare);
    assert r[|r| - 1] in r;
    forall x | x in s
      ensures compare(x, r[|r| - 1]) <= 0
    {
      var i :| 0 <= i < |r| && r[i] == x;
    }
  }

  /** The newly matching entries, in no particular order. */
  method InsertedValues(p: Pending) returns (values: seq<Entry>)
    requires forall k | k in p.inserted :: p.inserted[k].key == k
    ensures NoDuplicates(values)
    ensures forall x :: x in values <==> x in InsertedEntries(p)
  {
    values := [];
    var left := p.inserted.Keys;
    while left != {}
      invariant left <= p.inserted.Keys
      invariant NoDuplicates(values) && |values| + |left| == |p.inserted|
      invariant forall x :: x in values <==> x.key in p.inserted && x.key !in left && p.inserted[x.key] == x
    {
      var k :| k in left;
      values := values + [p.inserted[k]];
      left := left - {k};
    }
  }

  method RetainedWindowKeyIndex(window: seq<Entry>) returns (keyIndex: map<string, nat>)
    requires DistinctKeys(window)
    ensures IndexesKeys(keyIndex, window)
  {
    keyIndex := map[];
    for i := 0 to |window|
      invariant forall j | 0 <= j < i :: window[j].key in keyIndex && keyIndex[window[j].key] == j
      invariant forall k | k in keyIndex :: keyIndex[k] < i && window[keyIndex[k]].key == k
    {
      keyIndex := keyIndex[window[i].key := i];
    }
  }

  lemma UpToAfter(es: seq<Entry>, z: Entry, tail: Entry, compare: (Entry, Entry) -> int)
    requires z !in es
    ensures |UpTo(Elements(es + [z]), tail, compare)| ==
            |UpTo(Elements(es), tail, compare)| + (if compare(z, tail) <= 0 then 1 else 0)
  {
    var now := UpTo(Elements(es + [z]), tail, compare);
    assert now == UpTo(Elements(es), tail, compare) + (if compare(z, tail) <= 0 then {z} else {});
  }

  /** How much of the merged list is sure to lead the new view. The last remaining entry is read only
      when there is one. */
  method RetainedLimitAfterInsertedChanges(compareRetained: (Entry, Entry) -> int, inserted: seq<Entry>,
                                           limit: Option<nat>, required: Option<nat>, removedRetainedEntry: bool,
                                           windowEntries: seq<Entry>)
    returns (retained: Option<nat>)
    requires NoDuplicates(inserted)
    requires removedRetainedEntry && required.Some? ==> limit.Some? && windowEntries != []
    ensures !removedRetainedEntry || required.None? ==> retained == limit
    ensures removedRetainedEntry && required.Some? ==>
      var tail := windowEntries[|windowEntries| - 1];
      retained == Some(Min(limit.value,
                           |windowEntries| + |UpTo(Elements(inserted), tail, compareRetained)|) as nat)
  {
    if !removedRetainedEntry || required.None? {
      return limit;
    }
    var retainedTail := windowEntries[|windowEntries| - 1];
    var safeInsertedEntries := 0;
    for i := 0 to |inserted|
      invariant safeInsertedEntries == |UpTo(Elements(inserted[..i]), retainedTail, compareRetained)|
    {
      var z := inserted[i];
      assert inserted[..i + 1] == inserted[..i] + [z] && z !in inserted[..i];
      UpToAfter(inserted[..i], z, retainedTail, compareRetained);
      if compareRetained(z, retainedTail) <= 0 {
        safeInsertedEntries := safeInsertedEntries + 1;
      }
    }
    assert inserted[..|inserted|] == inserted;
    return Some(Min(limit.value, |windowEntries| + safeInsertedEntries));
  }

  method EvaluationOf(window: seq<Entry>, totalRows: int, version: nat, base: Option<nat>) returns (e: BaseEvaluation)
    requires DistinctKeys(window)
    ensures e.window == window && e.totalRows == totalRows && e.version == version
    ensures e.retainedWindowFilled == RetainedWindowFilled(window, totalRows, RetainedLimit(base))
    ensures e.keys == KeysOf(window) && IndexesKeys(e.keyIndex, window)
  {
    var keyIndex := RetainedWindowKeyIndex(window);
    return BaseEvaluation(keyIndex, KeysOf(window), RetainedWindowFilled(window, totalRows, RetainedLimit(base)),
                          totalRows, version, window);
  }

  lemma TopHasDistinctKeys(w: seq<Entry>, rows: Table, q: Query)
    requires IsRowOrder(q.compare) && IsTop(w, Matching(rows, q.matches), q.compare)
    ensures DistinctKeys(w)
  {
    forall i, j | 0 <= i < j < |w|
      ensures w[i].key != w[j].key
    {
      assert w[i] in w && w[j] in w;
      assert q.compare(w[i], w[j]) < 0;
    }
  }

  // ----- The update -----

  /** The changes of all batches, one after the other. */
  ghost function ChangesOf(batches: seq<Batch>): seq<Change> {
    if batches == [] then [] else ChangesOf(batches[..|batches| - 1]) + batches[|batches| - 1].changes
  }

  lemma {:induction false} ChangesOfPrefix(batches: seq<Batch>, b: nat, c: nat)
    requires b < |batches| && c <= |batches[b].changes|
    ensures ChangesOf(batches[..b]) + batches[b].changes[..c] <= ChangesOf(batches)
    ensures ChangesOf(batches[..b + 1]) == ChangesOf(batches[..b]) + batches[b].changes
    decreases |batches|
  {
    var front := batches[..|batches| - 1];
    assert batches[..b + 1][..b] == batches[..b] && batches[..b + 1][b] == batches[b];
    if b < |front| {
      ChangesOfPrefix(front, b, c);
      assert front[..b] == batches[..b] && front[b] == batches[b];
    }
  }

  lemma FollowableFurther(e: BaseEvaluation, before: Table, changes: seq<Change>, change: Change, q: Query,
                          limit: Option<nat>)
    requires AllFollowable(e, before, changes, q, limit)
    ensures AllFollowable(e, before, changes + [change], q, limit) <==>
      Followable(e, before, changes, change, q, limit)
  {
    hide Followable;
    var more := changes + [change];
    assert more[..|changes|] == changes;
    forall i | 0 <= i < |changes|
      ensures Followable(e, before, more[..i], more[i], q, limit)
    {
      assert more[..i] == changes[..i] && more[i] == changes[i];
    }
  }

  lemma PrefixFollowable(e: BaseEvaluation, before: Table, some: seq<Change>, all: seq<Change>, q: Query,
                         limit: Option<nat>)
    requires some <= all && AllFollowable(e, before, all, q, limit)
    ensures AllFollowable(e, before, some, q, limit)
  {
    hide Followable;
    forall i | 0 <= i < |some|
      ensures Followable(e, before, some[..i], some[i], q, limit)
    {
      assert some[..i] == all[..i] && some[i] == all[i];
    }
  }

  /** What has been gathered accounts for the table that the changes lead to; all of them could be followed. */
  ghost predicate Follows(e: BaseEvaluation, p: Pending, before: Table, rows: Table, changes: seq<Change>, q: Query,
                          base: Option<nat>)
  {
    && p.totalRows == |Matching(rows, q.matches)|
    && (base != Some(0) ==>
          && Tracks(e, p, before, rows, q, RetainedLimit(base)) && Reflects(e, p, before, rows, changes, q.matches)
          && AllFollowable(e, before, changes, q, RetainedLimit(base)))
  }

  /** Everything that matches is retained when there is no limit. */
  ghost predicate HoldsAll(e: BaseEvaluation, before: Table, q: Query, base: Option<nat>) {
    base.None? ==> forall x | x in Matching(before, q.matches) :: x in e.window
  }

  /** Follows one change, or only counts when no row is shown. */
  method FollowOne(e: BaseEvaluation, p: Pending, change: Change, q: Query, base: Option<nat>, ghost before: Table,
                   ghost rows: Table, ghost earlier: seq<Change>)
    returns (result: Option<Pending>)
    requires IsRowOrder(q.compare) && Follows(e, p, before, rows, earlier, q, base) && Truthful(rows, change)
    requires HoldsAll(e, before, q, base)
    ensures result.Some? ==>
      Follows(e, result.value, before, ApplyChange(rows, change), earlier + [change], q, base)
    ensures result.None? ==> base.Some? && base != Some(0)
    ensures result.None? ==> !AllFollowable(e, before, earlier + [change], q, RetainedLimit(base))
  {
    hide Tracks, IsRowOrder, Reflects, Followable, AllFollowable, Matching, Truthful;
    if RetainedLimit(base) == Some(0) {
      CountAfterChange(rows, change, q.matches);
      return Some(p.(totalRows := p.totalRows + MatchDifference(change, q.matches)));
    }
    result := FollowChange(e, p, change, q, RetainedLimit(base), before, rows, earlier);
    FollowableFurther(e, before, earlier, change, q, RetainedLimit(base));
  }

  /** Follows the changes of one batch. */
  method FollowBatch(e: BaseEvaluation, p: Pending, changes: seq<Change>, q: Query, base: Option<nat>,
                     ghost before: Table, ghost start: Table, ghost earlier: seq<Change>)
    returns (result: Option<Pending>)
    requires IsRowOrder(q.compare) && Follows(e, p, before, start, earlier, q, base) && Replay(start, changes).Some?
    requires HoldsAll(e, before, q, base)
    ensures result.Some? ==>
      Follows(e, result.value, before, Replay(start, changes).value, earlier + changes, q, base)
    ensures result.None? ==> base.Some? && base != Some(0)
    ensures result.None? ==> !AllFollowable(e, before, earlier + changes, q, RetainedLimit(base))
  {
    hide Follows, IsRowOrder, AllFollowable, HoldsAll, Truthful;
    result := Some(p);
    assert earlier + changes[..0] == earlier;
    for c := 0 to |changes|
      invariant Replay(start, changes[..c]).Some? && result.Some?
      invariant Follows(e, result.value, before, Replay(start, changes[..c]).value, earlier + changes[..c], q, base)
    {
      ReplayStep(start, changes, c);
      ghost var seen := earlier + changes[..c];
      assert seen + [changes[c]] == earlier + changes[..c + 1];
      result := FollowOne(e, result.value, changes[c], q, base, before, Replay(start, changes[..c]).value, seen);
      if result.None? {
        if AllFollowable(e, before, earlier + changes, q, RetainedLimit(base)) {
          PrefixFollowable(e, before, seen + [changes[c]], earlier + changes, q, RetainedLimit(base));
        }
        return;
      }
    }
    assert changes[..|changes|] == changes;
  }

  lemma NothingFollowed(e: BaseEvaluation, before: Table, q: Query, base: Option<nat>)
    requires IsRowOrder(q.compare) && Current(e, before, q, base)
    ensures Follows(e, Pending(e.totalRows, e.window, {}, map[], false), before, before, [], q, base)
    ensures HoldsAll(e, before, q, base)
  {
    hide Tracks, Reflects;
    TracksInitially(e, before, q, base);
    ReflectsInitially(e, before, q, base);
    if base.None? {
      MatchingIsTotal(before, q);
      WholeWindowHasAll(e.window, Matching(before, q.matches), q.compare);
    }
  }

  /** Follows the changes of all batches in order; `None` when only a rescan can tell the new window. */
  method FollowChanges(e: BaseEvaluation, batches: seq<Batch>, q: Query, base: Option<nat>, ghost before: Table,
                       ghost after: Table)
    returns (result: Option<Pending>)
    requires IsRowOrder(q.compare) && Current(e, before, q, base)
    requires ReplayBatches(before, batches) == Some(after)
    ensures result.Some? ==> result.value.totalRows == |Matching(after, q.matches)|
    ensures result.Some? && base != Some(0) ==> Tracks(e, result.value, before, after, q, RetainedLimit(base))
    ensures result.Some? && base != Some(0) ==>
      Reflects(e, result.value, before, after, ChangesOf(batches), q.matches)
    ensures base.None? || base == Some(0) ==> result.Some?
    ensures base != Some(0) ==>
      (result.Some? <==> AllFollowable(e, before, ChangesOf(batches), q, RetainedLimit(base)))
  {
    hide Tracks, IsRowOrder, Reflects, AllFollowable, HoldsAll, Matching, Replay, Current;
    result := Some(Pending(e.totalRows, e.window, {}, map[], false));
    ghost var rows := before;
    NothingFollowed(e, before, q, base);
    for b := 0 to |batches|
      invariant ReplayBatches(before, batches[..b]) == Some(rows) && result.Some?
      invariant Follows(e, result.value, before, rows, ChangesOf(batches[..b]), q, base)
    {
      ReplayBatchesStep(before, batches, b);
      ChangesOfPrefix(batches, b, |batches[b].changes|);
      result := FollowBatch(e, result.value, batches[b].changes, q, base, before, rows, ChangesOf(batches[..b]));
      if result.None? {
        NotYetFollowable(e, before, batches, b, q, RetainedLimit(base));
        return;
      }
      rows := Replay(rows, batches[b].changes).value;
    }
    assert batches[..|batches|] == batches;
  }

  lemma NotYetFollowable(e: BaseEvaluation, before: Table, batches: seq<Batch>, b: nat, q: Query, limit: Option<nat>)
    requires b < |batches|
    requires !AllFollowable(e, before, ChangesOf(batches[..b]) + batches[b].changes, q, limit)
    ensures !AllFollowable(e, before, ChangesOf(batches), q, limit)
  {
    hide AllFollowable;
    var changes := batches[b].changes;
    ChangesOfPrefix(batches, b, |changes|);
    assert changes[..|changes|] == changes;
    if AllFollowable(e, before, ChangesOf(batches), q, limit) {
      PrefixFollowable(e, before, ChangesOf(batches[..b]) + changes, ChangesOf(batches), q, limit);
    }
  }

  lemma CountAfterChange(rows: Table, change: Change, matches: Row -> bool)
    requires Truthful(rows, change)
    ensures |Matching(ApplyChange(rows, change), matches)| ==
      |Matching(rows, matches)| + MatchDifference(change, matches)
  {
    MatchingAfterChange(rows, change, matches);
  }

  lemma TracksInitially(e: BaseEvaluation, before: Table, q: Query, base: Option<nat>)
    requires IsRowOrder(q.compare) && Current(e, before, q, base)
    ensures Tracks(e, Pending(e.totalRows, e.window, {}, map[], false), before, before, q, RetainedLimit(base))
  {
    var p := Pending(e.totalRows, e.window, {}, map[], false);
    forall k | Kept(e, p, k)
      ensures Selected(p.entries[e.keyIndex[k]], before, q.matches)
    {
      assert p.entries[e.keyIndex[k]] in e.window;
    }
    forall k | k in before
      ensures Accounted(e, p, before, before, q, k)
    {
    }
  }

  /** What a change adds to the number of matching rows. */
  function MatchDifference(change: Change, matches: Row -> bool): int {
    var previousMatches := change.previous.Some? && matches(change.previous.value);
    var nextMatches := change.next.Some? && matches(change.next.value);
    if previousMatches && !nextMatches then -1
    else if !previousMatches && nextMatches then 1
    else 0
  }

  lemma MergedIsRanked(kept: set<Entry>, added: set<Entry>, all: set<Entry>, compareRetained: (Entry, Entry) -> int,
                       compare: (Entry, Entry) -> int, w: seq<Entry>, inserted: seq<Entry>)
    requires TotalOn(compare, all) && TotalOn(compare, kept) && w == Ranked(kept, compare)
    requires kept <= all && added <= all && kept !! added && AgreeOn(compareRetained, compare, all)
    requires NoDuplicates(inserted) && forall x :: x in inserted <==> x in added
    ensures TotalOn(compare, kept + added)
    ensures SortBy(w + inserted, compareRetained) == Ranked(kept + added, compare)
  {
    TotalOnSubset(compare, all, kept + added);
    SortedHasNoDuplicates(w, kept, compare);
    forall i, j | 0 <= i < j < |w + inserted|
      ensures (w + inserted)[i] != (w + inserted)[j]
    {
      assert i < |w| ==> w[i] in w;
      assert j >= |w| ==> inserted[j - |w|] in inserted;
    }
    SortRetained(w + inserted, kept + added, all, compareRetained, compare);
  }

  lemma SafeAgrees(added: set<Entry>, all: set<Entry>, compareRetained: (Entry, Entry) -> int,
                   compare: (Entry, Entry) -> int, tail: Entry, inserted: seq<Entry>)
    requires added <= all && tail in all && AgreeOn(compareRetained, compare, all)
    requires forall x :: x in inserted <==> x in added
    ensures UpTo(Elements(inserted), tail, compareRetained) == UpTo(added, tail, compare)
  {
  }

  /** The last of the remaining entries: none of them is worse, and it cuts the inserted ones where the query's
      own order would. */
  ghost predicate CutsAt(w: seq<Entry>, kept: set<Entry>, added: set<Entry>, inserted: seq<Entry>,
                         compareRetained: (Entry, Entry) -> int, compare: (Entry, Entry) -> int)
  {
    && w != [] && w[|w| - 1] in kept && (forall x | x in kept :: compare(x, w[|w| - 1]) <= 0)
    && UpTo(Elements(inserted), w[|w| - 1], compareRetained) == UpTo(added, w[|w| - 1], compare)
  }

  lemma LastEntryCuts(kept: set<Entry>, added: set<Entry>, all: set<Entry>, compareRetained: (Entry, Entry) -> int,
                      compare: (Entry, Entry) -> int, w: seq<Entry>, inserted: seq<Entry>)
    requires TotalOn(compare, kept) && w == Ranked(kept, compare) && w != []
    requires kept <= all && added <= all && AgreeOn(compareRetained, compare, all)
    requires forall x :: x in inserted <==> x in added
    ensures CutsAt(w, kept, added, inserted, compareRetained, compare)
  {
    hide TotalOn;
    LastIsWorst(kept, compare);
    SafeAgrees(added, all, compareRetained, compare, w[|w| - 1], inserted);
  }

  // ----- When the update succeeds -----

  /** The retained rows that have matched all along. */
  ghost function StillRetained(e: BaseEvaluation, before: Table, changes: seq<Change>, matches: Row -> bool)
    : set<string>
  {
    set k | k in e.keyIndex && StillMatches(k, before, changes, matches)
  }

  /** Every row that matches now has matched all along. */
  ghost predicate NothingNew(before: Table, changes: seq<Change>, after: Table, matches: Row -> bool) {
    forall k | k in after && matches(after[k]) :: StillMatches(k, before, changes, matches)
  }

  /** The changes lead to the new window without a rescan: all of them can be followed, the retained rows that have
      matched all along still reach the end of the base window, and new rows come to a filled window only. */
  ghost predicate CanUpdate(e: BaseEvaluation, before: Table, changes: seq<Change>, after: Table, q: Query,
                            base: Option<nat>)
  {
    && AllFollowable(e, before, changes, q, RetainedLimit(base))
    && (base.Some? ==>
          Min(|Matching(after, q.matches)|, base.value) <= |StillRetained(e, before, changes, q.matches)|)
    && (e.retainedWindowFilled || NothingNew(before, changes, after, q.matches))
  }

  lemma {:induction false} KeysCount(entries: set<Entry>, keys: set<string>)
    requires forall x, y | x in entries && y in entries && x.key == y.key :: x == y
    requires keys == set x | x in entries :: x.key
    ensures |keys| == |entries|
    decreases entries
  {
    if entries != {} {
      var x :| x in entries;
      var rest := entries - {x};
      KeysCount(rest, set y | y in rest :: y.key);
      assert keys == (set y | y in rest :: y.key) + {x.key};
    }
  }

  /** As many entries are kept as retained rows have matched all along. */
  lemma KeptCount(e: BaseEvaluation, p: Pending, before: Table, rows: Table, changes: seq<Change>, q: Query,
                  limit: Option<nat>)
    requires Tracks(e, p, before, rows, q, limit) && Reflects(e, p, before, rows, changes, q.matches)
    ensures |KeptEntries(p)| == |StillRetained(e, before, changes, q.matches)|
  {
    hide StillMatches, Accounted, NotBehind;
    var kept, still := KeptEntries(p), StillRetained(e, before, changes, q.matches);
    forall i | 0 <= i < |p.entries|
      ensures p.entries[i].key in e.keyIndex && e.keyIndex[p.entries[i].key] == i
    {
      assert p.entries[i].key == e.window[i].key;
    }
    forall k | k in still
      ensures p.entries[e.keyIndex[k]] in kept && p.entries[e.keyIndex[k]].key == k
    {
      assert e.window[e.keyIndex[k]].key == k;
    }
    assert still == set x | x in kept :: x.key;
    KeysCount(kept, still);
  }

  lemma InsertedAreNew(e: BaseEvaluation, p: Pending, before: Table, rows: Table, changes: seq<Change>,
                       matches: Row -> bool)
    requires Reflects(e, p, before, rows, changes, matches)
    ensures p.inserted == map[] <==> NothingNew(before, changes, rows, matches)
  {
    if p.inserted == map[] {
      forall k | k in rows && matches(rows[k])
        ensures StillMatches(k, before, changes, matches)
      {
        assert k !in p.inserted && Lookup(rows, k) == Some(rows[k]);
      }
    }
    if NothingNew(before, changes, rows, matches) {
      assert forall k :: k !in p.inserted;
    }
  }

  /** A row that matches is not touched by changes of rows that did not. */
  lemma {:induction false} OthersUntouched(before: Table, changes: seq<Change>, matches: Row -> bool, k: string)
    requires Replay(before, changes).Some? && NowMatches(Lookup(before, k), matches)
    requires forall c | c in changes :: !NowMatches(c.previous, matches)
    ensures (forall c | c in changes :: c.key != k) && Lookup(Replay(before, changes).value, k) == Lookup(before, k)
  {
    if changes != [] {
      var front := changes[..|changes| - 1];
      OthersUntouched(before, front, matches, k);
      assert changes == front + [changes[|changes| - 1]];
      assert changes[|changes| - 1] in changes;
    }
  }

  /** Rows that come to match need no rescan exactly as long as the window alone still reaches the end of the base
      window: an insertion into a window that holds all matching rows and is short of the base limit rescans. */
  lemma InsertionsCanBeFollowed(e: BaseEvaluation, before: Table, changes: seq<Change>, after: Table, q: Query,
                                base: Option<nat>)
    requires Current(e, before, q, base) && Replay(before, changes) == Some(after) && e.retainedWindowFilled
    requires forall c | c in changes :: !NowMatches(c.previous, q.matches)
    ensures CanUpdate(e, before, changes, after, q, base) <==>
      (base.Some? ==> Min(|Matching(after, q.matches)|, base.value) <= |e.window|)
  {
    forall i | 0 <= i < |changes|
      ensures Followable(e, before, changes[..i], changes[i], q, RetainedLimit(base))
    {
      assert changes[i] in changes;
    }
    forall k | k in e.keyIndex
      ensures StillMatches(k, before, changes, q.matches)
    {
      assert e.window[e.keyIndex[k]] in e.window;
      assert Selected(e.window[e.keyIndex[k]], before, q.matches);
      OthersUntouched(before, changes, q.matches, k);
    }
    assert StillRetained(e, before, changes, q.matches) == e.keyIndex.Keys;
    AllIndexed(e.keyIndex, e.window);
  }

  lemma AllIndexed(keyIndex: map<string, nat>, window: seq<Entry>)
    requires IndexesKeys(keyIndex, window)
    ensures |keyIndex.Keys| == |window|
  {
    var entries := Elements(window);
    forall i, j | 0 <= i < j < |window|
      ensures window[i] != window[j]
    {
      assert keyIndex[window[i].key] == i && keyIndex[window[j].key] == j;
    }
    NoDuplicatesCount(window);
    forall k
      ensures k in keyIndex <==> k in set x | x in entries :: x.key
    {
      if k in keyIndex {
        assert window[keyIndex[k]] in entries;
      }
    }
    assert keyIndex.Keys == set x | x in entries :: x.key;
    KeysCount(entries, keyIndex.Keys);
  }

  lemma {:induction false} CountUnchanged(before: Table, changes: seq<Change>, matches: Row -> bool)
    requires Replay(before, changes).Some?
    requires forall c | c in changes :: NowMatches(c.previous, matches) && NowMatches(c.next, matches)
    ensures |Matching(Replay(before, changes).value, matches)| == |Matching(before, matches)|
    ensures forall k | k in Replay(before, changes).value && matches(Replay(before, changes).value[k]) ::
      NowMatches(Lookup(before, k), matches)
  {
    if changes != [] {
      var front, last := changes[..|changes| - 1], changes[|changes| - 1];
      assert last in changes;
      CountUnchanged(before, front, matches);
      CountAfterChange(Replay(before, front).value, last, matches);
    }
  }

  /** Retained rows that stay in place or move forward never need a rescan. */
  lemma ReplacementsCanBeFollowed(e: BaseEvaluation, before: Table, changes: seq<Change>, after: Table, q: Query,
                                  base: Option<nat>)
    requires Current(e, before, q, base) && Replay(before, changes) == Some(after)
    requires forall c | c in changes ::
      && NowMatches(c.previous, q.matches) && NowMatches(c.next, q.matches) && c.key in e.keyIndex
      && q.compare(Entry(c.key, c.next.value), Entry(c.key, c.previous.value)) <= 0
    ensures CanUpdate(e, before, changes, after, q, base)
  {
    CountUnchanged(before, changes, q.matches);
    forall i | 0 <= i < |changes|
      ensures Followable(e, before, changes[..i], changes[i], q, RetainedLimit(base))
    {
      assert changes[i] in changes;
    }
    forall k | NowMatches(Lookup(before, k), q.matches)
      ensures StillMatches(k, before, changes, q.matches)
    {
    }
    forall k | k in e.keyIndex
      ensures NowMatches(Lookup(before, k), q.matches)
    {
      assert e.window[e.keyIndex[k]] in e.window;
      assert Selected(e.window[e.keyIndex[k]], before, q.matches);
    }
    assert StillRetained(e, before, changes, q.matches) == e.keyIndex.Keys;
    AllIndexed(e.keyIndex, e.window);
  }

  /** The incremental update: from an evaluation that was current before the batches to one that is
      current after them, or `None`, which sends the caller to a rescan exactly when the changes cannot be followed.
      A query without a limit and a query that only counts never need the rescan. */
  method UpdateFromRetainedChanges(e: BaseEvaluation, batches: seq<Batch>, q: Query, base: Option<nat>, stored: Table,
                                   currentVersion: nat, ghost before: Table)
    returns (result: Option<BaseEvaluation>)
    requires IsRowOrder(q.compare) && Current(e, before, q, base)
    requires ReplayBatches(before, batches) == Some(stored)
    ensures result.Some? ==> Current(result.value, stored, q, base) && result.value.version == currentVersion
    ensures base.None? || base == Some(0) ==> result.Some?
    ensures base != Some(0) ==> (result.Some? <==> CanUpdate(e, before, ChangesOf(batches), stored, q, base))
  {
    hide AllFollowable, StillMatches, Tracks, Reflects, Current, IsRowOrder, NothingNew;
    var followed := FollowChanges(e, batches, q, base, before, stored);
    if followed.None? {
      return None;
    }
    if base == Some(0) {
      var counted := BaseEvaluation(map[], [], true, followed.value.totalRows, currentVersion, []);
      CountedIsCurrent(counted, stored, q);
      return Some(counted);
    }
    var compareRetained := RetainedEntryComparator(stored, q);
    ComparatorAgrees(stored, q);
    KeptCount(e, followed.value, before, stored, ChangesOf(batches), q, RetainedLimit(base));
    InsertedAreNew(e, followed.value, before, stored, ChangesOf(batches), q.matches);
    result := RebuildWindow(e, followed.value, q, base, compareRetained, currentVersion, before, stored);
    if base.None? {
      UnboundedIsFilled(e, before, q);
    }
  }

  lemma CountedIsCurrent(e: BaseEvaluation, stored: Table, q: Query)
    requires e == BaseEvaluation(map[], [], true, |Matching(stored, q.matches)|, e.version, [])
    ensures Current(e, stored, q, Some(0))
  {
  }

  lemma UnboundedIsFilled(e: BaseEvaluation, before: Table, q: Query)
    requires Current(e, before, q, None)
    ensures e.retainedWindowFilled
  {
  }

  /** The evaluation for the gathered entries; `None` when they do not reach far enough. */
  method RebuildWindow(e: BaseEvaluation, p: Pending, q: Query, base: Option<nat>,
                       compareRetained: (Entry, Entry) -> int, currentVersion: nat, ghost before: Table,
                       ghost stored: Table)
    returns (result: Option<BaseEvaluation>)
    requires IsRowOrder(q.compare) && Current(e, before, q, base) && base != Some(0)
    requires Tracks(e, p, before, stored, q, RetainedLimit(base)) && p.totalRows == |Matching(stored, q.matches)|
    requires AgreeOn(compareRetained, q.compare, Matching(stored, q.matches))
    ensures result.Some? ==> Current(result.value, stored, q, base) && result.value.version == currentVersion
    ensures result.Some? <==>
      && (base.Some? ==> Min(|Matching(stored, q.matches)|, base.value) <= |KeptEntries(p)|)
      && (e.retainedWindowFilled || p.inserted == map[])
  {
    var remaining := Remaining(p.entries, p.removed);
    var windowEntries := if p.replaced then SortBy(remaining, compareRetained) else remaining;
    RemainingIsRanked(e, p, before, stored, q, base, compareRetained, windowEntries);
    if base.Some? && |windowEntries| < Min(p.totalRows, base.value) {
      return None;
    }
    if p.inserted != map[] && !e.retainedWindowFilled {
      return None;
    }
    EntriesAreGathered(e, p, before, stored, q, base);
    var window := windowEntries;
    if p.inserted == map[] {
      RemainingWindowLeads(p, stored, q, base, e.retainedWindowFilled);
    } else {
      window := MergeInserted(p, q, base, compareRetained, windowEntries, stored, e.retainedWindowFilled);
    }
    TopHasDistinctKeys(window, stored, q);
    var updated := EvaluationOf(window, p.totalRows, currentVersion, base);
    return Some(updated);
  }

  lemma RemainingWindowLeads(p: Pending, stored: Table, q: Query, base: Option<nat>, filled: bool)
    requires IsRowOrder(q.compare) && p.inserted == map[]
    requires Gathered(KeptEntries(p), InsertedEntries(p), Matching(stored, q.matches), q.compare, base,
                      filled && p.removed == {})
    requires TotalOn(q.compare, KeptEntries(p))
    requires base.Some? ==> |KeptEntries(p)| >= Min(|Matching(stored, q.matches)|, base.value)
    ensures Leads(Ranked(KeptEntries(p), q.compare), Matching(stored, q.matches), q.compare, base)
  {
    assert InsertedEntries(p) == {};
    MatchingIsTotal(stored, q);
    RemainingLeads(KeptEntries(p), Matching(stored, q.matches), q.compare, base, filled && p.removed == {});
  }

  /** Merges the newly matching entries into the remaining retained ones. */
  method MergeInserted(p: Pending, q: Query, base: Option<nat>, compareRetained: (Entry, Entry) -> int,
                       windowEntries: seq<Entry>, ghost stored: Table, ghost filled: bool)
    returns (limitedWindow: seq<Entry>)
    requires AgreeOn(compareRetained, q.compare, Matching(stored, q.matches))
    requires IsRowOrder(q.compare) && base != Some(0) && p.inserted != map[] && filled
    requires Gathered(KeptEntries(p), InsertedEntries(p), Matching(stored, q.matches), q.compare, base,
                      filled && p.removed == {})
    requires TotalOn(q.compare, KeptEntries(p)) && windowEntries == Ranked(KeptEntries(p), q.compare)
    requires base.Some? ==> |windowEntries| >= Min(|Matching(stored, q.matches)|, base.value)
    requires forall k | k in p.inserted :: p.inserted[k].key == k
    ensures Leads(limitedWindow, Matching(stored, q.matches), q.compare, base)
  {
    hide TotalOn, IsRowOrder, AgreeOn, Leads, Matching, KeptEntries, InsertedEntries, CutsAt;
    ghost var kept, added, all := KeptEntries(p), InsertedEntries(p), Matching(stored, q.matches);
    MatchingIsTotal(stored, q);
    SomethingRemains(p, stored, q, base, windowEntries);
    var inserted := InsertedValues(p);
    var window := SortBy(windowEntries + inserted, compareRetained);
    MergedIsRanked(kept, added, all, compareRetained, q.compare, windowEntries, inserted);
    if base.None? {
      WholeRankingLeads(all, q.compare);
      return window;
    }
    LastEntryCuts(kept, added, all, compareRetained, q.compare, windowEntries, inserted);
    limitedWindow := CutMerged(compareRetained, inserted, base, p.removed != {}, windowEntries, window,
                               kept, added, all, q.compare);
  }

  /** Cuts the merged list where it stops being sure to lead the new view. */
  method CutMerged(compareRetained: (Entry, Entry) -> int, inserted: seq<Entry>, base: Option<nat>,
                   removedRetainedEntry: bool, windowEntries: seq<Entry>, window: seq<Entry>, ghost kept: set<Entry>,
                   ghost added: set<Entry>, ghost all: set<Entry>, ghost compare: (Entry, Entry) -> int)
    returns (limitedWindow: seq<Entry>)
    requires TotalOn(compare, all) && Gathered(kept, added, all, compare, base, !removedRetainedEntry)
    requires base.Some? && |kept| == |windowEntries| && |kept| >= Min(|all|, base.value)
    requires NoDuplicates(inserted) && CutsAt(windowEntries, kept, added, inserted, compareRetained, compare)
    requires TotalOn(compare, kept + added) && window == Ranked(kept + added, compare)
    ensures Leads(limitedWindow, all, compare, base)
  {
    hide TotalOn;
    var retainedLimit := RetainedLimitAfterInsertedChanges(
      compareRetained, inserted, RetainedLimit(base), base, removedRetainedEntry, windowEntries);
    var n := retainedLimit.value;
    SliceIsPrefix(window, n);
    limitedWindow := Slice(window, 0, Some(n));
    if removedRetainedEntry {
      TailMergeLeads(kept, added, all, compare, base, windowEntries[|windowEntries| - 1], n);
    } else {
      FilledMergeLeads(kept, added, all, compare, base, |limitedWindow|);
    }
  }

  lemma WholeRankingLeads(all: set<Entry>, compare: (Entry, Entry) -> int)
    requires TotalOn(compare, all)
    ensures Leads(Ranked(all, compare), all, compare, None)
  {
    PrefixIsTop(all, compare, |all|);
    assert Ranked(all, compare)[..|all|] == Ranked(all, compare);
  }

  /** A bounded update that comes to merging has at least one remaining entry: the new entries match, so
      the total is positive and so is the number of entries the base window needs. */
  lemma SomethingRemains(p: Pending, stored: Table, q: Query, base: Option<nat>, w: seq<Entry>)
    requires InsertedEntries(p) <= Matching(stored, q.matches) && p.inserted != map[]
    requires forall k | k in p.inserted :: p.inserted[k].key == k
    requires base.Some? ==> base.value > 0 && |w| >= Min(|Matching(stored, q.matches)|, base.value)
    ensures base.Some? ==> w != []
  {
    var k :| k in p.inserted;
    assert p.inserted[k] in InsertedEntries(p);
  }
}
