/** The health of a topic: its mutation rate over the last second and the depths of its subscribers' queues. */
module HealthLedger {
  import opened Values
  import opened Sequences
  import opened Sums

  const MUTATION_RATE_WINDOW_MILLIS: nat := 1000
  const MAX_MUTATION_RATE_BUCKETS: nat := MUTATION_RATE_WINDOW_MILLIS + 1

  datatype Mutation = Mutation(occurredAt: int, rowsChanged: nat)

  datatype MutationRateBucket = MutationRateBucket(occurredAt: int, mutations: nat, rowsChanged: nat)

  type Ring = seq<Option<MutationRateBucket>>

  datatype Rate = Rate(mutations: nat, rowsChanged: nat)

  function Plus(a: Rate, b: Rate): Rate {
    Rate(a.mutations + b.mutations, a.rowsChanged + b.rowsChanged)
  }

  /** The bucket of a time: the size of its truncated remainder. */
  function MutationRateBucketIndex(occurredAt: int): (i: nat)
    ensures i < MAX_MUTATION_RATE_BUCKETS
  {
    (if occurredAt < 0 then -occurredAt else occurredAt) % MAX_MUTATION_RATE_BUCKETS
  }

  predicate InWindow(occurredAt: int, now: int) {
    now - MUTATION_RATE_WINDOW_MILLIS <= occurredAt <= now
  }

  function RateOfMutation(m: Mutation, now: int): Rate {
    if InWindow(m.occurredAt, now) then Rate(1, m.rowsChanged) else Rate(0, 0)
  }

  /** What happened in the second up to `now`, that moment and the one a second before it included. */
  ghost function RateOf(mutations: seq<Mutation>, now: int): Rate {
    if mutations == [] then Rate(0, 0)
    else
      Plus(RateOf(mutations[..|mutations| - 1], now), RateOfMutation(mutations[|mutations| - 1], now))
  }

  function RateOfBucket(bucket: Option<MutationRateBucket>, now: int): Rate {
    if bucket.Some? && InWindow(bucket.value.occurredAt, now) then
      Rate(bucket.value.mutations, bucket.value.rowsChanged)
    else Rate(0, 0)
  }

  ghost function RateOfRing(ring: Ring, now: int): Rate {
    if ring == [] then Rate(0, 0)
    else Plus(RateOfRing(ring[..|ring| - 1], now), RateOfBucket(ring[|ring| - 1], now))
  }

  /** Changing one bucket changes the rate by the difference of that bucket. */
  lemma {:induction false} OneBucketChanged(ring: Ring, i: nat, bucket: Option<MutationRateBucket>, now: int)
    requires i < |ring|
    ensures Plus(RateOfRing(ring[i := bucket], now), RateOfBucket(ring[i], now)) ==
            Plus(RateOfRing(ring, now), RateOfBucket(bucket, now))
    decreases |ring|
  {
    hide RateOfBucket;
    var n := |ring| - 1;
    if i < n {
      OneBucketChanged(ring[..n], i, bucket, now);
      assert ring[i := bucket][..n] == ring[..n][i := bucket];
    } else {
      assert ring[i := bucket][..n] == ring[..n];
    }
  }

  lemma {:induction false} EmptyRing(ring: Ring, now: int)
    requires forall i | 0 <= i < |ring| :: ring[i].None?
    ensures RateOfRing(ring, now) == Rate(0, 0)
  {
    if ring != [] {
      EmptyRing(ring[..|ring| - 1], now);
    }
  }

  function BucketAfter(existing: Option<MutationRateBucket>, m: Mutation): MutationRateBucket {
    if existing.Some? && existing.value.occurredAt == m.occurredAt then
      MutationRateBucket(m.occurredAt, existing.value.mutations + 1, existing.value.rowsChanged + m.rowsChanged)
    else MutationRateBucket(m.occurredAt, 1, m.rowsChanged)
  }

  function BucketOf(m: Mutation): (i: nat)
    ensures i < MAX_MUTATION_RATE_BUCKETS
  {
    MutationRateBucketIndex(m.occurredAt)
  }

  /** The ring after some mutations were recorded in an empty one. */
  ghost function Recorded(mutations: seq<Mutation>): (ring: Ring)
    ensures |ring| == MAX_MUTATION_RATE_BUCKETS
  {
    if mutations == [] then seq(MAX_MUTATION_RATE_BUCKETS, i => None)
    else
      var ring, m := Recorded(mutations[..|mutations| - 1]), mutations[|mutations| - 1];
      ring[BucketOf(m) := Some(BucketAfter(ring[BucketOf(m)], m))]
  }

  // ----- What the ring forgets -----

  /** The second mutation takes the bucket of the first away. */
  predicate Replaces(first: Mutation, second: Mutation) {
    BucketOf(first) == BucketOf(second) && first.occurredAt != second.occurredAt
  }

  /** A mutation of the second up to `now` had its bucket taken away by a later one. */
  ghost predicate Forgets(mutations: seq<Mutation>, now: int) {
    exists i, j ::
      0 <= i < j < |mutations| && InWindow(mutations[i].occurredAt, now) && Replaces(mutations[i], mutations[j])
  }

  /** The bucket holds the time of the last mutation that belongs there, if there is one. */
  ghost predicate HoldsLast(bucket: Option<MutationRateBucket>, b: nat, mutations: seq<Mutation>) {
    match bucket
    case None => forall i | 0 <= i < |mutations| :: BucketOf(mutations[i]) != b
    case Some(held) =>
      held.mutations > 0 && exists i :: IsLastOf(i, b, mutations) && mutations[i].occurredAt == held.occurredAt
  }

  ghost predicate IsLastOf(i: int, b: nat, mutations: seq<Mutation>) {
    && 0 <= i < |mutations| && BucketOf(mutations[i]) == b
    && forall j | i < j < |mutations| :: BucketOf(mutations[j]) != b
  }

  lemma {:induction false} BucketsHoldTheLast(mutations: seq<Mutation>, b: nat)
    requires b < MAX_MUTATION_RATE_BUCKETS
    ensures HoldsLast(Recorded(mutations)[b], b, mutations)
    decreases |mutations|
  {
    hide MutationRateBucketIndex;
    if mutations != [] {
      var n := |mutations| - 1;
      var front := mutations[..n];
      BucketsHoldTheLast(front, b);
      if BucketOf(mutations[n]) == b {
        assert IsLastOf(n, b, mutations);
      } else if Recorded(front)[b].Some? {
        var i :| IsLastOf(i, b, front) && front[i].occurredAt == Recorded(front)[b].value.occurredAt;
        assert IsLastOf(i, b, mutations) && mutations[i] == front[i];
      }
    }
  }

  lemma RateOfMore(mutations: seq<Mutation>, m: Mutation, now: int)
    ensures RateOf(mutations + [m], now) == Plus(RateOf(mutations, now), RateOfMutation(m, now))
  {
    assert (mutations + [m])[..|mutations|] == mutations;
  }

  lemma {:induction false} RateOfOne(m: Mutation, now: int)
    ensures RateOf([m], now) == RateOfMutation(m, now)
  {
    hide InWindow, RateOfMutation;
    assert [m][..0] == [];
  }

  /** A mutation counts for the thousand milliseconds after it. */
  lemma {:induction false} CountsForOneSecond(m: Mutation, now: int)
    ensures RateOf([m], now) ==
            if m.occurredAt <= now <= m.occurredAt + 1000 then Rate(1, m.rowsChanged) else Rate(0, 0)
  {
    hide RateOf;
    RateOfOne(m, now);
  }

  lemma BucketGrows(existing: Option<MutationRateBucket>, m: Mutation, now: int)
    requires existing.Some? && existing.value.occurredAt != m.occurredAt ==> !InWindow(existing.value.occurredAt, now)
    ensures RateOfBucket(Some(BucketAfter(existing, m)), now) ==
            Plus(RateOfBucket(existing, now), RateOfMutation(m, now))
  {
    hide InWindow;
    if !InWindow(m.occurredAt, now) {
      assert RateOfMutation(m, now) == Rate(0, 0);
      assert RateOfBucket(existing, now) == Rate(0, 0);
    } else if existing.Some? && existing.value.occurredAt == m.occurredAt {
      assert RateOfBucket(existing, now) == Rate(existing.value.mutations, existing.value.rowsChanged);
    } else {
      assert RateOfBucket(existing, now) == Rate(0, 0);
    }
  }

  lemma NewBucketCountsOne(existing: Option<MutationRateBucket>, m: Mutation, now: int)
    requires existing.Some? && existing.value.occurredAt != m.occurredAt
    ensures RateOfBucket(Some(BucketAfter(existing, m)), now) == RateOfMutation(m, now)
  {
  }

  lemma ForgetsFurther(mutations: seq<Mutation>, m: Mutation, now: int)
    ensures Forgets(mutations, now) ==> Forgets(mutations + [m], now)
    ensures Forgets(mutations + [m], now) && !Forgets(mutations, now) ==>
      exists i :: 0 <= i < |mutations| && InWindow(mutations[i].occurredAt, now) && Replaces(mutations[i], m)
  {
    hide InWindow, Replaces;
    var more := mutations + [m];
    if Forgets(mutations, now) {
      var i, j :| 0 <= i < j < |mutations| && InWindow(mutations[i].occurredAt, now)
                  && Replaces(mutations[i], mutations[j]);
      assert more[i] == mutations[i] && more[j] == mutations[j];
    }
    if Forgets(more, now) {
      var i, j :| 0 <= i < j < |more| && InWindow(more[i].occurredAt, now) && Replaces(more[i], more[j]);
      assert more[i] == mutations[i];
      if j < |mutations| {
        assert more[j] == mutations[j];
      }
    }
  }

  /** The mutations whose bucket is taken away now were forgotten before, unless the bucket still held them. */
  lemma ReplacedNowOrForgotten(mutations: seq<Mutation>, i: nat, m: Mutation, now: int)
    requires i < |mutations| && InWindow(mutations[i].occurredAt, now) && Replaces(mutations[i], m)
    ensures Forgets(mutations, now) ||
            (Recorded(mutations)[BucketOf(m)].Some? &&
             Recorded(mutations)[BucketOf(m)].value.occurredAt == mutations[i].occurredAt)
  {
    hide MutationRateBucketIndex, InWindow, Recorded;
    BucketsHoldTheLast(mutations, BucketOf(m));
    var bucket := Recorded(mutations)[BucketOf(m)];
    if bucket.Some? && bucket.value.occurredAt != mutations[i].occurredAt {
      var l :| IsLastOf(l, BucketOf(m), mutations) && mutations[l].occurredAt == bucket.value.occurredAt;
      assert i < l && Replaces(mutations[i], mutations[l]);
    }
  }

  /** A bucket of this second that is taken away takes a mutation with it. */
  lemma HeldIsForgotten(mutations: seq<Mutation>, m: Mutation, now: int)
    requires
      var bucket := Recorded(mutations)[BucketOf(m)];
      bucket.Some? && bucket.value.occurredAt != m.occurredAt && InWindow(bucket.value.occurredAt, now)
    ensures Forgets(mutations + [m], now)
    ensures RateOfBucket(Recorded(mutations)[BucketOf(m)], now).mutations > 0
  {
    hide MutationRateBucketIndex, Recorded;
    BucketsHoldTheLast(mutations, BucketOf(m));
    var bucket := Recorded(mutations)[BucketOf(m)];
    var l :| IsLastOf(l, BucketOf(m), mutations) && mutations[l].occurredAt == bucket.value.occurredAt;
    var more := mutations + [m];
    assert more[l] == mutations[l] && more[|mutations|] == m && Replaces(more[l], more[|mutations|]);
  }

  /** The ring tells exactly what happened in the second up to `now` if and only if no mutation of that second
      had its bucket taken away, whatever the clock did; otherwise it tells too few. */
  lemma {:induction false} RingTellsUnlessItForgets(mutations: seq<Mutation>, now: int)
    ensures !Forgets(mutations, now) ==> RateOfRing(Recorded(mutations), now) == RateOf(mutations, now)
    ensures Forgets(mutations, now) ==>
      RateOfRing(Recorded(mutations), now).mutations < RateOf(mutations, now).mutations
    decreases |mutations|
  {
    if mutations == [] {
      EmptyRing(Recorded(mutations), now);
    } else {
      var front, m := mutations[..|mutations| - 1], mutations[|mutations| - 1];
      assert mutations == front + [m];
      RingTellsUnlessItForgets(front, now);
      TellsOneMore(front, m, now);
    }
  }

  lemma TellsOneMore(mutations: seq<Mutation>, m: Mutation, now: int)
    requires !Forgets(mutations, now) ==> RateOfRing(Recorded(mutations), now) == RateOf(mutations, now)
    requires Forgets(mutations, now) ==>
      RateOfRing(Recorded(mutations), now).mutations < RateOf(mutations, now).mutations
    ensures
      var more := mutations + [m];
      && (!Forgets(more, now) ==> RateOfRing(Recorded(more), now) == RateOf(more, now))
      && (Forgets(more, now) ==> RateOfRing(Recorded(more), now).mutations < RateOf(more, now).mutations)
  {
    hide MutationRateBucketIndex, InWindow, RateOf, RateOfRing, RateOfBucket, RateOfMutation, BucketAfter, Forgets;
    var more, ring, b := mutations + [m], Recorded(mutations), BucketOf(m);
    assert more[..|more| - 1] == mutations && more[|more| - 1] == m;
    assert Recorded(more) == ring[b := Some(BucketAfter(ring[b], m))];
    OneBucketChanged(ring, b, Some(BucketAfter(ring[b], m)), now);
    RateOfMore(mutations, m, now);
    ForgetsFurther(mutations, m, now);
    if ring[b].Some? && ring[b].value.occurredAt != m.occurredAt && InWindow(ring[b].value.occurredAt, now) {
      HeldIsForgotten(mutations, m, now);
      NewBucketCountsOne(ring[b], m, now);
    } else {
      BucketGrows(ring[b], m, now);
      if Forgets(more, now) && !Forgets(mutations, now) {
        var i :| 0 <= i < |mutations| && InWindow(mutations[i].occurredAt, now) && Replaces(mutations[i], m);
        ReplacedNowOrForgotten(mutations, i, m, now);
      }
    }
  }

  /** The clock of these mutations starts at zero or later and never goes back. */
  ghost predicate Orderly(mutations: seq<Mutation>) {
    && (forall m | m in mutations :: m.occurredAt >= 0)
    && forall i, j | 0 <= i < j < |mutations| :: mutations[i].occurredAt <= mutations[j].occurredAt
  }

  /** No mutation happened after this moment. */
  predicate NotBefore(now: int, mutations: seq<Mutation>) {
    mutations == [] || mutations[|mutations| - 1].occurredAt <= now
  }

  /** A replaced bucket is more than a second old. */
  lemma ReplacedIsOld(existing: int, occurredAt: int, now: int)
    requires 0 <= existing < occurredAt <= now
    requires MutationRateBucketIndex(existing) == MutationRateBucketIndex(occurredAt)
    ensures !InWindow(existing, now)
  {
    var n := MAX_MUTATION_RATE_BUCKETS;
    assert existing == existing / n * n + existing % n && occurredAt == occurredAt / n * n + occurredAt % n;
    assert occurredAt - existing == (occurredAt / n - existing / n) * n;
  }

  /** On an orderly clock nothing is forgotten at any moment since the last mutation. */
  lemma OrderlyClockForgetsNothing(mutations: seq<Mutation>, now: int)
    requires Orderly(mutations) && NotBefore(now, mutations)
    ensures !Forgets(mutations, now) && RateOfRing(Recorded(mutations), now) == RateOf(mutations, now)
  {
    forall i, j | 0 <= i < j < |mutations| && Replaces(mutations[i], mutations[j])
      ensures !InWindow(mutations[i].occurredAt, now)
    {
      assert j == |mutations| - 1 || mutations[j].occurredAt <= mutations[|mutations| - 1].occurredAt;
      assert mutations[i] in mutations;
      ReplacedIsOld(mutations[i].occurredAt, mutations[j].occurredAt, now);
    }
    RingTellsUnlessItForgets(mutations, now);
  }

  /** A clock that goes back can lose what happened: of these two mutations, a ring's length apart and the later
      one recorded first, one lies within the second and the ring tells none. */
  lemma ClockGoingBackLosesMutations()
    ensures
      var mutations := [Mutation(MAX_MUTATION_RATE_BUCKETS, 1), Mutation(0, 1)];
      var now := MAX_MUTATION_RATE_BUCKETS;
      && !Orderly(mutations) && Forgets(mutations, now) && RateOf(mutations, now) == Rate(1, 1)
      && RateOfRing(Recorded(mutations), now).mutations == 0
  {
    var first, second := Mutation(MAX_MUTATION_RATE_BUCKETS, 1), Mutation(0, 1);
    var both, now := [first, second], MAX_MUTATION_RATE_BUCKETS;
    assert both[0].occurredAt > both[1].occurredAt;
    assert InWindow(both[0].occurredAt, now) && Replaces(both[0], both[1]);
    assert both[..1] == [first] && [first][..0] == [];
    assert RateOf([first], now) == Rate(1, 1);
    RingTellsUnlessItForgets(both, now);
  }

  // ----- Subscribers -----

  datatype TopicHealthSubscription = TopicHealthSubscription(queuedEvents: nat, maxQueueDepth: nat,
                                                             backpressureEvents: nat)

  type Subscriptions = map<nat, TopicHealthSubscription>

  ghost function Depths(subscriptions: Subscriptions): map<nat, nat> {
    map s | s in subscriptions :: subscriptions[s].queuedEvents
  }

  ghost function Queued(subscriptions: Subscriptions): nat {
    SumOf(Depths(subscriptions))
  }

  lemma QueuedWithout(subscriptions: Subscriptions, s: nat)
    requires s in subscriptions
    ensures Queued(subscriptions) == subscriptions[s].queuedEvents + Queued(subscriptions - {s})
  {
    SumSplit(Depths(subscriptions), s);
    assert Depths(subscriptions) - {s} == Depths(subscriptions - {s});
  }

  lemma DepthsWith(subscriptions: Subscriptions, s: nat, tracked: TopicHealthSubscription)
    ensures Depths(subscriptions[s := tracked]) == Depths(subscriptions)[s := tracked.queuedEvents]
    ensures Depths(subscriptions) - {s} == Depths(subscriptions - {s})
  {
  }

  lemma QueuedWith(subscriptions: Subscriptions, s: nat, tracked: TopicHealthSubscription)
    ensures Queued(subscriptions[s := tracked]) == tracked.queuedEvents + Queued(subscriptions - {s})
  {
    hide Depths;
    DepthsWith(subscriptions, s, tracked);
    SumUpdate(Depths(subscriptions), s, tracked.queuedEvents);
  }

  /** What a snapshot reports. */
  datatype TopicHealthTotals = TopicHealthTotals(
    activeSubscriptions: int,
    queuedEvents: int,
    rate: Rate
  )

  class TopicHealthLedger {
    var subscriptions: Subscriptions
    var mutationRateBuckets: array<Option<MutationRateBucket>>
    var activeSubscriptions: int
    var queuedEvents: int
    /** The mutations recorded since the last reset. */
    ghost var mutations: seq<Mutation>

    /** The counters agree with the subscriptions, and the ring is that of the mutations. */
    ghost predicate Valid()
      reads this, mutationRateBuckets
    {
      && activeSubscriptions == |subscriptions| && queuedEvents == Queued(subscriptions)
      && mutationRateBuckets[..] == Recorded(mutations)
    }

    constructor ()
      ensures Valid() && subscriptions == map[] && mutations == [] && fresh(mutationRateBuckets)
    {
      subscriptions, activeSubscriptions, queuedEvents, mutations := map[], 0, 0, [];
      mutationRateBuckets := new Option<MutationRateBucket>[MAX_MUTATION_RATE_BUCKETS](i => None);
      new;
      assert mutationRateBuckets[..] == Recorded([]);
    }

    method RecordMutation(rowsChanged: int, occurredAt: int)
      requires Valid()
      modifies this`mutations, mutationRateBuckets
      ensures Valid()
      ensures mutations == old(mutations) + [Mutation(occurredAt, if rowsChanged > 0 then rowsChanged else 0)]
    {
      var m := Mutation(occurredAt, if rowsChanged > 0 then rowsChanged else 0);
      ghost var ring := mutationRateBuckets[..];
      var bucketIndex := MutationRateBucketIndex(occurredAt);
      mutationRateBuckets[bucketIndex] := Some(BucketAfter(mutationRateBuckets[bucketIndex], m));
      assert mutationRateBuckets[..] == ring[bucketIndex := Some(BucketAfter(ring[bucketIndex], m))];
      assert (mutations + [m])[..|mutations|] == mutations;
      mutations := mutations + [m];
    }

    method OpenSubscription(s: nat)
      requires Valid()
      modifies this`subscriptions, this`activeSubscriptions
      ensures Valid()
      ensures subscriptions ==
              if s in old(subscriptions) then old(subscriptions)
              else old(subscriptions)[s := TopicHealthSubscription(0, 0, 0)]
    {
      if s in subscriptions {
        return;
      }
      QueuedWith(subscriptions, s, TopicHealthSubscription(0, 0, 0));
      LargerMap(subscriptions, s, TopicHealthSubscription(0, 0, 0));
      assert subscriptions - {s} == subscriptions;
      subscriptions := subscriptions[s := TopicHealthSubscription(0, 0, 0)];
      activeSubscriptions := activeSubscriptions + 1;
    }

    method CloseSubscription(s: nat)
      requires Valid()
      modifies this`subscriptions, this`activeSubscriptions, this`queuedEvents
      ensures Valid() && subscriptions == old(subscriptions) - {s}
    {
      if s !in subscriptions {
        assert subscriptions - {s} == subscriptions;
        return;
      }
      QueuedWithout(subscriptions, s);
      SmallerMap(subscriptions, s);
      var rest := queuedEvents - subscriptions[s].queuedEvents;
      queuedEvents := if rest > 0 then rest else 0;
      subscriptions := subscriptions - {s};
      activeSubscriptions := activeSubscriptions - 1;
    }

    method UpdateQueueDepth(s: nat, nextDepth: nat)
      requires Valid()
      modifies this`subscriptions, this`queuedEvents
      ensures Valid() && subscriptions.Keys == old(subscriptions).Keys
      ensures s in subscriptions ==>
        && subscriptions[s].queuedEvents == nextDepth
        && subscriptions[s].backpressureEvents == old(subscriptions)[s].backpressureEvents
        && subscriptions[s].maxQueueDepth ==
          if nextDepth > old(subscriptions)[s].maxQueueDepth then nextDepth else old(subscriptions)[s].maxQueueDepth
      ensures forall t | t in subscriptions && t != s :: subscriptions[t] == old(subscriptions)[t]
    {
      if s !in subscriptions {
        return;
      }
      var tracked := subscriptions[s];
      var maxQueueDepth := if nextDepth > tracked.maxQueueDepth then nextDepth else tracked.maxQueueDepth;
      QueuedWithout(subscriptions, s);
      LargerMap(subscriptions, s, tracked.(queuedEvents := nextDepth, maxQueueDepth := maxQueueDepth));
      QueuedWith(subscriptions, s, tracked.(queuedEvents := nextDepth, maxQueueDepth := maxQueueDepth));
      queuedEvents := queuedEvents - tracked.queuedEvents + nextDepth;
      subscriptions := subscriptions[s := tracked.(queuedEvents := nextDepth, maxQueueDepth := maxQueueDepth)];
    }

    method Reset()
      requires mutationRateBuckets.Length == MAX_MUTATION_RATE_BUCKETS
      modifies this, mutationRateBuckets
      ensures Valid() && subscriptions == map[] && mutations == [] && mutationRateBuckets == old(mutationRateBuckets)
    {
      forall i | 0 <= i < mutationRateBuckets.Length {
        mutationRateBuckets[i] := None;
      }
      subscriptions, activeSubscriptions, queuedEvents, mutations := map[], 0, 0, [];
      assert mutationRateBuckets[..] == Recorded([]);
    }

    /** The totals at a moment: the depths of all open subscribers' queues, and the mutations of the last second,
        exactly as long as none of them was forgotten and too few otherwise. */
    method Snapshot(now: int) returns (totals: TopicHealthTotals)
      requires Valid()
      ensures totals.activeSubscriptions == |subscriptions| && totals.queuedEvents == Queued(subscriptions)
      ensures totals.rate == RateOf(mutations, now) <==> !Forgets(mutations, now)
      ensures Forgets(mutations, now) ==> totals.rate.mutations < RateOf(mutations, now).mutations
      ensures Orderly(mutations) && NotBefore(now, mutations) ==> totals.rate == RateOf(mutations, now)
    {
      hide MutationRateBucketIndex, InWindow, Recorded, Orderly, Forgets, RateOf, RateOfBucket, Depths;
      var rate := Rate(0, 0);
      for i := 0 to mutationRateBuckets.Length
        invariant rate == RateOfRing(mutationRateBuckets[..i], now)
      {
        assert mutationRateBuckets[..i + 1][..i] == mutationRateBuckets[..i];
        rate := Plus(rate, RateOfBucket(mutationRateBuckets[i], now));
      }
      assert mutationRateBuckets[..mutationRateBuckets.Length] == mutationRateBuckets[..];
      RingTellsUnlessItForgets(mutations, now);
      if Orderly(mutations) && NotBefore(now, mutations) {
        OrderlyClockForgetsNothing(mutations, now);
      }
      totals := TopicHealthTotals(activeSubscriptions, if queuedEvents > 0 then queuedEvents else 0, rate);
    }
  }
}
