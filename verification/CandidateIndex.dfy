/** Lazily built equality buckets, and the candidate slots a scan can be narrowed to. */
module CandidateIndex {
  import opened Values
  import opened Sequences
  import opened Ranking
  import opened Predicates
  import opened OrderedIndex

  const MAX_RETAINED_SCALAR_PREDICATE_BUCKET_SLOTS: nat := 100_000

  /** The equality buckets of one field: under each indexed key, the slots that hold it. */
  datatype ScalarPredicateFieldIndex = ScalarPredicateFieldIndex(buckets: map<Value, set<nat>>, indexedKeys: set<Value>)

  type ScalarPredicateIndexes = map<string, ScalarPredicateFieldIndex>

  function ColumnScalarEqualityKey(column: seq<Value>, slot: nat): Option<Value> {
    if slot < |column| then ScalarEqualityKey(column[slot]) else None
  }

  /** The bucket holds exactly the live slots with this key. */
  ghost predicate BucketExact(bucket: set<nat>, column: seq<Value>, key: Value, live: set<nat>) {
    forall s: nat :: s in bucket <==> s in live && ColumnScalarEqualityKey(column, s) == Some(key)
  }

  ghost predicate FieldExact(index: ScalarPredicateFieldIndex, column: seq<Value>, live: set<nat>) {
    && index.buckets.Keys == index.indexedKeys
    && forall k | k in index.buckets ::
         BucketExact(index.buckets[k], column, k, live)
           && |index.buckets[k]| <= MAX_RETAINED_SCALAR_PREDICATE_BUCKET_SLOTS
  }

  /** Every retained bucket of every indexed field is exact and within budget, and no field is kept without
      buckets. */
  ghost predicate BucketsExact(indexes: ScalarPredicateIndexes, columns: Columns, live: set<nat>) {
    forall f | f in indexes :: FieldRetained(indexes[f], columns, f, live)
  }

  ghost predicate FieldRetained(index: ScalarPredicateFieldIndex, columns: Columns, field: string, live: set<nat>) {
    field in columns && FieldExact(index, columns[field], live) && index.indexedKeys != {}
  }

  function PruneEmptyScalarPredicateIndex(indexes: ScalarPredicateIndexes, field: string): ScalarPredicateIndexes {
    if field in indexes && indexes[field].indexedKeys == {} then indexes - {field} else indexes
  }

  function EvictScalarPredicateBucket(index: ScalarPredicateFieldIndex, key: Value): ScalarPredicateFieldIndex {
    ScalarPredicateFieldIndex(index.buckets - {key}, index.indexedKeys - {key})
  }

  // ----- Keeping the buckets exact -----

  method AddSlotToScalarPredicateIndex(index: ScalarPredicateFieldIndex, column: seq<Value>, slot: nat,
                                       ghost live: set<nat>)
    returns (result: ScalarPredicateFieldIndex)
    requires FieldExact(index, column, live) && slot !in live
    ensures FieldExact(result, column, live + {slot})
  {
    var key := ColumnScalarEqualityKey(column, slot);
    if key.None? || key.value !in index.indexedKeys {
      return index;
    }
    var bucket := index.buckets[key.value] + {slot};
    if |bucket| > MAX_RETAINED_SCALAR_PREDICATE_BUCKET_SLOTS {
      return EvictScalarPredicateBucket(index, key.value);
    }
    return index.(buckets := index.buckets[key.value := bucket]);
  }

  lemma BucketWithout(bucket: set<nat>, column: seq<Value>, key: Value, live: set<nat>, slot: nat)
    requires BucketExact(bucket, column, key, live)
    ensures
      var rest := if ColumnScalarEqualityKey(column, slot) == Some(key) then bucket - {slot} else bucket;
      BucketExact(rest, column, key, live - {slot}) && |rest| <= |bucket|
  {
    SubsetSize(bucket - {slot}, bucket);
  }

  method RemoveSlotFromScalarPredicateIndex(index: ScalarPredicateFieldIndex, column: seq<Value>, slot: nat,
                                            ghost live: set<nat>)
    returns (result: ScalarPredicateFieldIndex)
    requires FieldExact(index, column, live)
    ensures FieldExact(result, column, live - {slot})
  {
    hide BucketExact;
    forall k | k in index.buckets
      ensures
        var rest := if ColumnScalarEqualityKey(column, slot) == Some(k) then index.buckets[k] - {slot}
          else index.buckets[k];
        BucketExact(rest, column, k, live - {slot}) && |rest| <= |index.buckets[k]|
    {
      BucketWithout(index.buckets[k], column, k, live, slot);
    }
    var key := ColumnScalarEqualityKey(column, slot);
    if key.None? || key.value !in index.indexedKeys {
      return index;
    }
    var bucket := index.buckets[key.value] - {slot};
    return index.(buckets := index.buckets[key.value := bucket]);
  }

  /** Adds or removes a slot in the buckets of every indexed field. */
  method UpdateScalarPredicateIndexes(indexes: ScalarPredicateIndexes, columns: Columns, slot: nat, adding: bool,
                                      ghost live: set<nat>)
    returns (result: ScalarPredicateIndexes)
    requires BucketsExact(indexes, columns, live) && (adding ==> slot !in live)
    ensures BucketsExact(result, columns, if adding then live + {slot} else live - {slot})
  {
    result := indexes;
    var fields := indexes.Keys;
    ghost var live' := if adding then live + {slot} else live - {slot};
    while fields != {}
      invariant forall f | f in fields :: f in indexes && f in result && result[f] == indexes[f]
      invariant RetainedExcept(result, columns, fields, live')
      decreases |fields|
    {
      var field :| field in fields;
      var updated := UpdateFieldIndex(indexes[field], columns[field], slot, adding, live);
      UpdatedIsRetained(result, columns, fields, field, updated, live');
      result := PruneEmptyScalarPredicateIndex(result[field := updated], field);
      fields := fields - {field};
    }
  }

  ghost predicate RetainedExcept(indexes: ScalarPredicateIndexes, columns: Columns, fields: set<string>,
                                 live: set<nat>)
  {
    forall f | f in indexes && f !in fields :: FieldRetained(indexes[f], columns, f, live)
  }

  lemma UpdatedIsRetained(indexes: ScalarPredicateIndexes, columns: Columns, fields: set<string>, field: string,
                          updated: ScalarPredicateFieldIndex, live: set<nat>)
    requires RetainedExcept(indexes, columns, fields, live) && field in fields
    requires field in columns && FieldExact(updated, columns[field], live)
    ensures RetainedExcept(PruneEmptyScalarPredicateIndex(indexes[field := updated], field), columns, fields - {field},
                           live)
  {
  }

  method UpdateFieldIndex(index: ScalarPredicateFieldIndex, column: seq<Value>, slot: nat, adding: bool,
                          ghost live: set<nat>)
    returns (result: ScalarPredicateFieldIndex)
    requires FieldExact(index, column, live) && (adding ==> slot !in live)
    ensures FieldExact(result, column, if adding then live + {slot} else live - {slot})
  {
    if adding {
      result := AddSlotToScalarPredicateIndex(index, column, slot, live);
    } else {
      result := RemoveSlotFromScalarPredicateIndex(index, column, slot, live);
    }
  }

  // ----- Candidates from buckets -----

  /** The slots among the first `n` whose key is one of `keys`. */
  ghost predicate HoldsKeys(slots: set<nat>, column: seq<Value>, keys: set<Value>, n: nat) {
    forall s: nat :: s in slots <==> s < n && s < |column| && ScalarEqualityKey(column[s]).Some? && column[s] in keys
  }

  ghost function ColumnSlots(column: seq<Value>): set<nat> {
    Elements(SlotNumbers(|column|))
  }

  lemma BucketHoldsKey(bucket: set<nat>, column: seq<Value>, key: Value)
    requires BucketExact(bucket, column, key, ColumnSlots(column))
    ensures HoldsKeys(bucket, column, {key}, |column|)
  {
  }

  predicate ScalarPredicateBucketIsOverRetainedBudget(bucket: set<nat>) {
    |bucket| > MAX_RETAINED_SCALAR_PREDICATE_BUCKET_SLOTS
  }

  /** The bucket of one key, built on first use; `None` when there is none to be had or it is too large. */
  method EnsureScalarPredicateBucket(index: ScalarPredicateFieldIndex, column: seq<Value>, valueKey: Value,
                                     allowBucketBuild: bool, maxSlotCount: nat)
    returns (bucket: Option<set<nat>>, index': ScalarPredicateFieldIndex)
    requires FieldExact(index, column, ColumnSlots(column))
    ensures FieldExact(index', column, ColumnSlots(column))
    ensures bucket.Some? ==> HoldsKeys(bucket.value, column, {valueKey}, |column|)
  {
    if valueKey in index.indexedKeys {
      var indexed := index.buckets[valueKey];
      if ScalarPredicateBucketIsOverRetainedBudget(indexed) {
        return None, EvictScalarPredicateBucket(index, valueKey);
      }
      BucketHoldsKey(indexed, column, valueKey);
      return Some(indexed), index;
    }
    if !allowBucketBuild {
      return None, index;
    }
    var built: set<nat> := {};
    for slot := 0 to |column|
      invariant HoldsKeys(built, column, {valueKey}, slot) && |built| <= MAX_RETAINED_SCALAR_PREDICATE_BUCKET_SLOTS
    {
      if ColumnScalarEqualityKey(column, slot) == Some(valueKey) {
        built := built + {slot};
        if ScalarPredicateBucketIsOverRetainedBudget(built) || |built| >= maxSlotCount {
          return None, index;
        }
      }
    }
    if built == {} {
      return Some(built), index;
    }
    return Some(built), ScalarPredicateFieldIndex(index.buckets[valueKey := built], index.indexedKeys + {valueKey});
  }

  lemma HoldsEither(a: set<nat>, b: set<nat>, column: seq<Value>, aKeys: set<Value>, bKeys: set<Value>, n: nat)
    requires HoldsKeys(a, column, aKeys, n) && HoldsKeys(b, column, bKeys, n)
    ensures HoldsKeys(a + b, column, aKeys + bKeys, n)
  {
  }

  /** The slots of the indexed keys among `valueKeys`, and the keys that have no bucket yet. */
  method CollectIndexedSlots(index: ScalarPredicateFieldIndex, column: seq<Value>, valueKeys: seq<Value>,
                             maxSlotCount: nat)
    returns (slots: Option<set<nat>>, missingKeys: set<Value>, index': ScalarPredicateFieldIndex)
    requires FieldExact(index, column, ColumnSlots(column))
    ensures FieldExact(index', column, ColumnSlots(column))
    ensures slots.Some? ==> index' == index && missingKeys == Elements(valueKeys) - index.indexedKeys
    ensures slots.Some? ==> HoldsKeys(slots.value, column, Elements(valueKeys) - missingKeys, |column|)
  {
    var found: set<nat> := {};
    missingKeys := {};
    for i := 0 to |valueKeys|
      invariant missingKeys == Elements(valueKeys[..i]) - index.indexedKeys
      invariant HoldsKeys(found, column, Elements(valueKeys[..i]) - missingKeys, |column|)
    {
      var key := valueKeys[i];
      assert valueKeys[..i + 1] == valueKeys[..i] + [key];
      if key !in index.indexedKeys {
        missingKeys := missingKeys + {key};
      } else {
        var bucket := index.buckets[key];
        if ScalarPredicateBucketIsOverRetainedBudget(bucket) {
          return None, {}, EvictScalarPredicateBucket(index, key);
        }
        BucketHoldsKey(bucket, column, key);
        found := found + bucket;
        if bucket != {} && |found| >= maxSlotCount {
          return None, {}, index;
        }
      }
    }
    assert valueKeys[..|valueKeys|] == valueKeys;
    return Some(found), missingKeys, index;
  }

  /** Buckets under construction, after the first `n` slots. */
  ghost predicate BucketsSoFar(buckets: map<Value, set<nat>>, column: seq<Value>, n: nat) {
    forall k | k in buckets ::
      HoldsKeys(buckets[k], column, {k}, n) && |buckets[k]| <= MAX_RETAINED_SCALAR_PREDICATE_BUCKET_SLOTS
  }

  lemma SlotEntersItsBucket(buckets: map<Value, set<nat>>, column: seq<Value>, slot: nat)
    requires BucketsSoFar(buckets, column, slot) && slot < |column|
    ensures
      var key := column[slot];
      if key != Undefined && key in buckets then
        |buckets[key] + {slot}| <= MAX_RETAINED_SCALAR_PREDICATE_BUCKET_SLOTS ==>
          BucketsSoFar(buckets[key := buckets[key] + {slot}], column, slot + 1)
      else BucketsSoFar(buckets, column, slot + 1)
  {
  }

  lemma SlotIsHeld(added: set<nat>, column: seq<Value>, keys: set<Value>, slot: nat)
    requires HoldsKeys(added, column, keys, slot) && slot < |column|
    ensures
      HoldsKeys(if ScalarEqualityKey(column[slot]).Some? && column[slot] in keys then added + {slot} else added,
                column, keys, slot + 1)
  {
  }

  lemma NothingIsHeld(column: seq<Value>, keys: set<Value>)
    ensures HoldsKeys({}, column, keys, 0) && BucketsSoFar(map k | k in keys :: {}, column, 0)
  {
  }

  /** Builds the buckets of the missing keys in one pass over the column. */
  method BuildMissingBuckets(index: ScalarPredicateFieldIndex, column: seq<Value>, missingKeys: set<Value>,
                             found: set<nat>, maxSlotCount: nat, ghost foundKeys: set<Value>)
    returns (slots: Option<set<nat>>, index': ScalarPredicateFieldIndex)
    requires FieldExact(index, column, ColumnSlots(column)) && missingKeys !! index.indexedKeys
    requires HoldsKeys(found, column, foundKeys, |column|)
    ensures FieldExact(index', column, ColumnSlots(column))
    ensures slots.Some? ==> HoldsKeys(slots.value, column, foundKeys + missingKeys, |column|)
  {
    hide FieldExact, HoldsKeys, BucketsSoFar, ColumnSlots;
    var union := found;
    var missingBuckets: map<Value, set<nat>> := map k | k in missingKeys :: {};
    ghost var added: set<nat> := {};
    NothingIsHeld(column, missingKeys);
    for slot := 0 to |column|
      invariant missingBuckets.Keys == missingKeys && union == found + added
      invariant HoldsKeys(added, column, missingKeys, slot) && BucketsSoFar(missingBuckets, column, slot)
    {
      SlotEntersItsBucket(missingBuckets, column, slot);
      SlotIsHeld(added, column, missingKeys, slot);
      var key := ColumnScalarEqualityKey(column, slot);
      if key.Some? && key.value in missingBuckets {
        var bucket := missingBuckets[key.value] + {slot};
        if ScalarPredicateBucketIsOverRetainedBudget(bucket) {
          return None, index;
        }
        missingBuckets := missingBuckets[key.value := bucket];
        union := union + {slot};
        added := added + {slot};
        if |union| >= maxSlotCount {
          return None, index;
        }
      }
    }
    HoldsEither(found, added, column, foundKeys, missingKeys, |column|);
    return Some(union), AddBuckets(index, column, missingBuckets);
  }

  function NonEmptyBuckets(buckets: map<Value, set<nat>>): map<Value, set<nat>> {
    map k | k in buckets && buckets[k] != {} :: buckets[k]
  }

  /** Keeps the buckets that turned out not to be empty. */
  function AddBuckets(index: ScalarPredicateFieldIndex, ghost column: seq<Value>, buckets: map<Value, set<nat>>)
    : (index': ScalarPredicateFieldIndex)
    requires FieldExact(index, column, ColumnSlots(column)) && BucketsSoFar(buckets, column, |column|)
    ensures FieldExact(index', column, ColumnSlots(column))
  {
    var more := NonEmptyBuckets(buckets);
    assert (index.buckets + more).Keys == index.indexedKeys + more.Keys;
    assert forall k | k in more :: BucketExact(more[k], column, k, ColumnSlots(column));
    ScalarPredicateFieldIndex(index.buckets + more, index.indexedKeys + more.Keys)
  }

  /** The slots that hold one of the keys; `None` when there are too many of them or a bucket is missing
      and may not be built. */
  method UnionScalarPredicateSlots(index: ScalarPredicateFieldIndex, column: seq<Value>, valueKeys: seq<Value>,
                                   allowBucketBuild: bool, maxSlotCount: nat)
    returns (slots: Option<set<nat>>, index': ScalarPredicateFieldIndex)
    requires FieldExact(index, column, ColumnSlots(column))
    ensures FieldExact(index', column, ColumnSlots(column))
    ensures slots.Some? ==> HoldsKeys(slots.value, column, Elements(valueKeys), |column|)
  {
    if |valueKeys| == 0 {
      return Some({}), index;
    }
    if |valueKeys| == 1 {
      slots, index' := EnsureScalarPredicateBucket(index, column, valueKeys[0], allowBucketBuild, maxSlotCount);
      assert Elements(valueKeys) == {valueKeys[0]};
      if slots.Some? && |slots.value| >= maxSlotCount {
        slots := None;
      }
      return;
    }
    var missingKeys;
    slots, missingKeys, index' := CollectIndexedSlots(index, column, valueKeys, maxSlotCount);
    if slots.None? {
      return;
    }
    ghost var foundKeys := Elements(valueKeys) - missingKeys;
    assert foundKeys + missingKeys == Elements(valueKeys);
    if missingKeys == {} {
      return;
    }
    if !allowBucketBuild {
      slots := None;
      return;
    }
    slots, index' := BuildMissingBuckets(index', column, missingKeys, slots.value, maxSlotCount, foundKeys);
  }

  function CompareSlotNumbers(left: nat, right: nat): int {
    left - right
  }

  /** A set of slots in ascending order. */
  method StableCandidateSlotOrder(slots: set<nat>) returns (ordered: seq<nat>)
    ensures NoDuplicates(ordered) && forall s: nat :: s in ordered <==> s in slots
  {
    var listed := ListOf(slots);
    SortBySorts(listed, slots, CompareSlotNumbers);
    ordered := SortBy(listed, CompareSlotNumbers);
    SortedHasNoDuplicates(ordered, slots, CompareSlotNumbers);
  }
}
