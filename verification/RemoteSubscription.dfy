/** The client's end of a live subscription: a second bounded queue fed from the events of the first. */
module RemoteSubscription {
  import opened Values
  import opened QueryValueText
  import opened LiveProtocol
  import opened EventQueue

  /** A status that tells the client not to trust its rows as current. */
  predicate EndsReadiness(event: LiveEvent) {
    event.StatusEvent? && event.status != Ready && event.status != Loading
  }

  function SubscriptionOverflowStatus(queuedEvents: nat): (status: LiveEvent)
    ensures EndsReadiness(status) && status.status == Closed && status.code == "BackpressureExceeded"
  {
    StatusEvent(Closed, "BackpressureExceeded",
                Some("Remote subscription buffer exceeded capacity with " + Decimal(queuedEvents) +
                  " queued event(s)."))
  }

  datatype RemoteError = RemoteError(code: string, message: string)

  function SubscriptionFailureStatus(error: RemoteError): (status: LiveEvent)
    ensures EndsReadiness(status) && status.code == error.code && status.message == Some(error.message)
    ensures status.status == Closed <==> error.code == "BackpressureExceeded" || error.code == "SubscriptionClosed"
    ensures status.status == Stale <==> error.code == "SnapshotStale"
  {
    if error.code == "BackpressureExceeded" || error.code == "SubscriptionClosed" then
      StatusEvent(Closed, error.code, Some(error.message))
    else if error.code == "SnapshotStale" then
      StatusEvent(Stale, "SnapshotStale", Some(error.message))
    else
      StatusEvent(Failed, error.code, Some(error.message))
  }

  /** The first `n` events are the first produced ones; after them come at most `extra` statuses that end
      the client's readiness. */
  ghost predicate Gapless(events: seq<LiveEvent>, produced: seq<LiveEvent>, n: nat, extra: nat) {
    && n <= |events| <= n + extra && events[..n] <= produced
    && forall i | n <= i < |events| :: EndsReadiness(events[i])
  }

  lemma GaplessPrefix(events: seq<LiveEvent>, whole: seq<LiveEvent>, produced: seq<LiveEvent>, n: nat, extra: nat)
    returns (m: nat)
    requires Gapless(whole, produced, n, extra) && events <= whole
    ensures m <= n && Gapless(events, produced, m, extra)
  {
    m := if n <= |events| then n else |events|;
    assert events[..m] == whole[..n][..m];
  }

  lemma GaplessThenStatus(events: seq<LiveEvent>, status: LiveEvent, produced: seq<LiveEvent>, n: nat, extra: nat)
    requires Gapless(events, produced, n, extra) && EndsReadiness(status)
    ensures Gapless(events + [status], produced, n, extra + 1)
  {
    assert (events + [status])[..n] == events[..n];
  }

  lemma GaplessCutOff(events: seq<LiveEvent>, whole: seq<LiveEvent>, terminal: LiveEvent, produced: seq<LiveEvent>,
                      n: nat, extra: nat)
    returns (m: nat)
    requires Gapless(whole, produced, n, extra) && CutOff(events, whole, terminal) && EndsReadiness(terminal)
    ensures Gapless(events, produced, m, extra + 1)
  {
    var before := events[..|events| - 1];
    m := GaplessPrefix(before, whole, produced, n, extra);
    GaplessThenStatus(before, terminal, produced, m, extra);
    assert events == before + [terminal];
  }

  /** What comes out of one cut-off queue: the produced events without a gap, then at most its status. */
  lemma GaplessHop(q: DroppingQueue) returns (n: nat)
    requires q.Valid() && (q.terminal.Some? ==> EndsReadiness(q.terminal.value))
    ensures Gapless(q.consumed, q.produced, n, 1)
  {
    q.ConsumerReadsWithoutGap();
    n := if q.consumed <= q.produced then |q.consumed| else |q.consumed| - 1;
  }

  /** A queue has accepted all that was offered, or all but the one event that cut it off. */
  ghost predicate Accepted(produced: seq<LiveEvent>, terminal: Option<LiveEvent>, offered: seq<LiveEvent>) {
    match terminal
    case None => produced == offered
    case Some(status) => EndsReadiness(status) && offered != [] && produced == offered[..|offered| - 1]
  }

  lemma AcceptedMore(produced: seq<LiveEvent>, event: LiveEvent, terminal: Option<LiveEvent>, offered: seq<LiveEvent>)
    requires Accepted(produced, None, offered) && (terminal.Some? ==> EndsReadiness(terminal.value))
    ensures Accepted(if terminal.None? then produced + [event] else produced, terminal, offered + [event])
  {
  }

  class RemoteSubscription {
    const source: DroppingQueue
    const queue: DroppingQueue
    var lifecycleClosed: bool
    /** The fiber that relays events from the source. */
    var running: bool
    /** How often the lifecycle was closed, the status a failing source was turned into, and all that the
        relaying fiber has offered to the queue. */
    ghost var closes: nat
    ghost var failure: Option<LiveEvent>
    ghost var relayed: seq<LiveEvent>

    ghost predicate ValidQueues()
      reads this, source, queue
    {
      && source != queue && source.Valid() && queue.Valid()
      && (source.terminal.Some? ==> EndsReadiness(source.terminal.value))
      && Accepted(queue.produced, queue.terminal, relayed)
    }

    ghost predicate Valid()
      reads this, source, queue
    {
      && ValidQueues()
      && closes == (if lifecycleClosed then 1 else 0)
      && (running ==> !queue.ended && queue.terminal.None? && failure.None?)
      && (queue.terminal.Some? ==> lifecycleClosed)
      && (failure.Some? ==> EndsReadiness(failure.value) && relayed == source.consumed + [failure.value])
      && (failure.None? ==> relayed == source.consumed)
    }

    constructor (source: DroppingQueue, subscriptionBufferSize: int)
      requires source.Valid() && source.consumed == []
      requires source.terminal.Some? ==> EndsReadiness(source.terminal.value)
      ensures Valid() && this.source == source && running && !lifecycleClosed && fresh(queue)
      ensures queue.consumed == [] && queue.queue == []
      ensures queue.capacity == if subscriptionBufferSize > 0 then subscriptionBufferSize else 1
    {
      var queue := new DroppingQueue(if subscriptionBufferSize > 0 then subscriptionBufferSize else 1);
      this.source, this.queue := source, queue;
      lifecycleClosed, running := false, true;
      closes, failure, relayed := 0, None, [];
    }

    method CloseLifecycle()
      modifies this`lifecycleClosed, this`closes
      ensures lifecycleClosed && closes == old(closes) + if old(lifecycleClosed) then 0 else 1
    {
      var shouldClose := !lifecycleClosed;
      lifecycleClosed := true;
      if shouldClose {
        closes := closes + 1;
      }
    }

    /** Offers an event to the client; when its queue is full the subscription closes with one last status. */
    method OfferRemoteEvent(event: LiveEvent) returns (offered: bool)
      requires ValidQueues() && !queue.ended && queue.terminal.None?
      modifies this`lifecycleClosed, this`closes, this`relayed, queue
      ensures ValidQueues() && queue.consumed == old(queue.consumed) && relayed == old(relayed) + [event]
      ensures offered <==> |old(queue.queue)| < queue.capacity
      ensures offered ==>
        && !queue.ended && queue.terminal.None? && queue.queue == old(queue.queue) + [event]
        && lifecycleClosed == old(lifecycleClosed) && closes == old(closes)
      ensures !offered ==>
        && queue.ended && queue.terminal.Some? && queue.queue == [SubscriptionOverflowStatus(queue.capacity)]
        && lifecycleClosed && closes == old(closes) + if old(lifecycleClosed) then 0 else 1
    {
      ghost var produced := queue.produced;
      offered := queue.Offer(event);
      if !offered {
        var queuedEvents := |queue.queue|;
        CloseLifecycle();
        queue.CutOffWith(SubscriptionOverflowStatus(queuedEvents));
      }
      AcceptedMore(produced, event, queue.terminal, relayed);
      relayed := relayed + [event];
    }

    /** The next event of the source, or the end of it, reaches the relaying fiber. */
    method Relay() returns (relaying: bool)
      requires Valid() && running
      modifies this, source, queue
      ensures Valid()
      ensures relaying <==> old(source.queue) != []
      ensures relaying ==> relayed == old(relayed) + [old(source.queue)[0]] && source.queue == old(source.queue)[1..]
      ensures relaying && |old(queue.queue)| < queue.capacity ==>
        running && queue.queue == old(queue.queue) + [old(source.queue)[0]]
      ensures relaying && |old(queue.queue)| >= queue.capacity ==>
        !running && lifecycleClosed && queue.queue == [SubscriptionOverflowStatus(queue.capacity)]
      ensures !relaying ==> relayed == old(relayed) && running == !source.ended && queue.queue == old(queue.queue)
      ensures source.produced == old(source.produced) && source.terminal == old(source.terminal)
      ensures source.ended == old(source.ended) && queue.consumed == old(queue.consumed)
    {
      var event := source.Take();
      relaying := event.Some?;
      if relaying {
        running := OfferRemoteEvent(event.value);
      } else if source.ended {
        running := false;
        queue.End();
      }
    }

    /** The source fails: the failure reaches the client as a last status, and the queue ends. */
    method Fail(error: RemoteError)
      requires Valid() && running
      modifies this, queue
      ensures Valid() && !running && queue.ended
      ensures relayed == old(relayed) + [SubscriptionFailureStatus(error)] && queue.consumed == old(queue.consumed)
      ensures queue.queue != [] && EndsReadiness(queue.queue[|queue.queue| - 1])
    {
      hide SubscriptionFailureStatus, SubscriptionOverflowStatus;
      var status := SubscriptionFailureStatus(error);
      failure := Some(status);
      var offered := OfferRemoteEvent(status);
      running := false;
      queue.End();
    }

    /** The scope closes, because the reader left or the client does: what waits can still be read. */
    method Close()
      requires Valid()
      modifies this, queue
      ensures Valid() && !running && lifecycleClosed && closes == 1
      ensures queue.queue == old(queue.queue) && queue.produced == old(queue.produced)
      ensures queue.consumed == old(queue.consumed)
    {
      CloseLifecycle();
      if running {
        running := false;
        queue.End();
      }
    }

    /** The client reads its next event. */
    method Read() returns (event: Option<LiveEvent>)
      requires Valid()
      modifies queue
      ensures Valid()
      ensures event.None? <==> old(queue.queue) == []
      ensures event.Some? ==>
        event.value == old(queue.queue)[0] && queue.consumed == old(queue.consumed) + [event.value]
      ensures event.None? ==> queue.consumed == old(queue.consumed)
    {
      event := queue.Take();
    }

    /** Over both queues the reader misses nothing: it has read the events first produced at the source, and
        after them at most two statuses that end its readiness. */
    lemma ReadsWithoutGap() returns (n: nat)
      requires Valid()
      ensures Gapless(queue.consumed, source.produced, n, 2)
      ensures
        queue.queue == source.queue == [] && queue.terminal.None? && source.terminal.None? && failure.None? ==>
          queue.consumed == source.produced
    {
      source.ConsumerReadsWithoutGap();
      queue.ConsumerReadsWithoutGap();
      if queue.consumed <= queue.produced {
        n := RelayedWithoutGap();
        n := GaplessPrefix(queue.consumed, relayed, source.produced, n, 2);
      } else {
        n := AcceptedWithoutGap();
        n := GaplessCutOff(queue.consumed, queue.produced, queue.terminal.value, source.produced, n, 1);
      }
    }

    lemma AcceptedWithoutGap() returns (n: nat)
      requires Valid() && queue.terminal.Some?
      ensures Gapless(queue.produced, source.produced, n, 1)
    {
      n := GaplessHop(source);
      assert queue.produced <= source.consumed;
      n := GaplessPrefix(queue.produced, source.consumed, source.produced, n, 1);
    }

    lemma RelayedWithoutGap() returns (n: nat)
      requires Valid()
      ensures Gapless(relayed, source.produced, n, 2)
    {
      n := GaplessHop(source);
      if failure.Some? {
        GaplessThenStatus(source.consumed, failure.value, source.produced, n, 1);
      }
    }
  }
}
