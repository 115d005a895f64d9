/** A live subscription: it leases a query, follows it with a cursor and tells its subscriber what changes. */
module LiveSubscription {
  import opened Values
  import opened Rows
  import opened LiveProtocol
  import opened LiveAnswers
  import opened LiveEvents
  import opened EventQueue
  import opened LiveQueries
  import opened Registry
  import opened TopicStore

  function BackpressureStatus(): (status: LiveEvent)
    ensures status.StatusEvent? && status.status == Closed && status.code == "BackpressureExceeded"
  {
    StatusEvent(Closed, "BackpressureExceeded", Some("Subscription closed because its event queue exceeded capacity."))
  }

  /** The `k`-th evaluation shows the table that was committed at its version. */
  ghost predicate CommittedAt(evaluations: seq<QueryEvaluation>, tables: seq<Table>, committed: seq<Table>, k: nat) {
    && k < |evaluations| && k < |tables|
    && evaluations[k].version < |committed| && tables[k] == committed[evaluations[k].version]
  }

  ghost predicate WereCommitted(evaluations: seq<QueryEvaluation>, tables: seq<Table>, committed: seq<Table>) {
    && |tables| == |evaluations|
    && forall k {:trigger CommittedAt(evaluations, tables, committed, k)} | 0 <= k < |evaluations| ::
         CommittedAt(evaluations, tables, committed, k)
  }

  lemma OneMoreWasCommitted(evaluations: seq<QueryEvaluation>, tables: seq<Table>, committed: seq<Table>,
                            history: seq<Table>, evaluation: QueryEvaluation)
    requires WereCommitted(evaluations, tables, committed) && committed <= history && evaluation.version < |history|
    ensures WereCommitted(evaluations + [evaluation], tables + [history[evaluation.version]], history)
  {
    var evaluations', tables' := evaluations + [evaluation], tables + [history[evaluation.version]];
    forall k | 0 <= k < |evaluations'|
      ensures CommittedAt(evaluations', tables', history, k)
    {
      assert k < |evaluations| ==> CommittedAt(evaluations, tables, committed, k);
    }
  }

  method QueueWithSnapshot(capacity: nat, initial: QueryEvaluation, ghost answer: Answer, ghost rows: Table)
    returns (queue: DroppingQueue)
    requires capacity > 0 && Shows(initial, rows, answer)
    ensures fresh(queue) && queue.Valid() && !queue.ended && queue.terminal.None? && queue.consumed == []
    ensures queue.capacity == capacity && queue.queue == [SnapshotOf(initial)]
    ensures queue.produced != [] && Tells(queue.produced, [initial], [rows], answer)
  {
    queue := new DroppingQueue(capacity);
    var offered := queue.Offer(SnapshotOf(initial));
    TellsSnapshot(initial, rows, answer);
  }

  lemma ShownOnce(x: QueryEvaluation, y: QueryEvaluation, rows: Table, answer: Answer)
    requires Shows(x, rows, answer) && Shows(y, rows, answer) && x.version == y.version
    ensures x == y
  {
  }

  lemma ShownAlike(x: QueryEvaluation, y: QueryEvaluation, rows: Table, answer: Answer)
    requires Shows(y, rows, answer)
    ensures Shows(x, rows, answer) <==> x.window == y.window && x.totalRows == y.totalRows
  {
  }

  /** Leases the query, starts the cursor at its evaluation and queues the snapshot of its next one, which is
      the same. */
  method LeaseWithSnapshot(store: Store, query: LiveQuery, capacity: nat, ghost answer: Answer)
    returns (cursor: QueryEvaluation, queue: DroppingQueue, ghost rows: Table)
    requires store.Valid() && ValidLiveQuery(query, store.storage.Fields()) && AnswersQuery(answer, query, store.texts)
    requires capacity > 0
    modifies store`activeQueries, store`leases, store.storage`orderedSlotIndexes, store.storage`scalarPredicateIndexes
    modifies store.storage.rowChangeJournal
    ensures store.Valid() && store.History() == old(store.History())
    ensures store.leases == old(store.leases) + multiset{LeaseOf(query, store.texts)}
    ensures cursor.version == |store.History()| - 1 && rows == store.Head() && Shows(cursor, rows, answer)
    ensures fresh(queue) && queue.Valid() && !queue.ended && queue.terminal.None? && queue.consumed == []
    ensures queue.capacity == capacity && queue.queue == [SnapshotOf(cursor)]
    ensures queue.produced != [] && Tells(queue.produced, [cursor], [rows], answer)
  {
    hide Store.Valid, ValidLiveQuery, AnswersQuery, Shows;
    store.Acquire(query);
    var initial;
    cursor, initial, rows := EvaluateTwice(store, query, answer);
    queue := QueueWithSnapshot(capacity, initial, answer, rows);
  }

  /** Nothing happens between two evaluations, so they agree. */
  method EvaluateTwice(store: Store, query: LiveQuery, ghost answer: Answer)
    returns (cursor: QueryEvaluation, initial: QueryEvaluation, ghost rows: Table)
    requires store.Valid() && ValidLiveQuery(query, store.storage.Fields()) && AnswersQuery(answer, query, store.texts)
    requires LeaseOf(query, store.texts) in store.leases
    modifies store`activeQueries, store.storage`orderedSlotIndexes, store.storage`scalarPredicateIndexes
    modifies store.storage.rowChangeJournal
    ensures store.Valid() && store.History() == old(store.History()) && cursor == initial
    ensures cursor.version == |store.History()| - 1 && rows == store.Head() && Shows(cursor, rows, answer)
  {
    hide Store.Valid, ValidLiveQuery, AnswersQuery, Shows;
    rows := store.Head();
    cursor := store.Evaluate(query, answer);
    initial := store.Evaluate(query, answer);
    ShownOnce(initial, cursor, rows, answer);
  }

  class Subscription {
    const store: Store
    const query: LiveQuery
    const events: DroppingQueue
    ghost const answer: Answer
    var cursor: QueryEvaluation
    var closed: bool
    /** What the produced events have told, and the tables they told it of. */
    ghost var evaluations: seq<QueryEvaluation>
    ghost var tables: seq<Table>
    /** The tables committed when an event was last produced. */
    ghost var committed: seq<Table>

    /** The events tell a chain of true evaluations, whatever happens to the store. */
    ghost predicate Told()
      reads this, events
    {
      && events.Valid() && events.produced != [] && Answering(answer)
      && Tells(events.produced, evaluations, tables, answer) && WereCommitted(evaluations, tables, committed)
      && (!closed ==> !events.ended && events.terminal.None?)
      && (events.terminal.Some? ==> events.terminal.value.StatusEvent? && events.terminal.value.status == Closed)
    }

    /** The cursor is where the last event left it, on a committed table. */
    ghost predicate OnHistory(history: seq<Table>)
      reads this
    {
      evaluations != [] && cursor == evaluations[|evaluations| - 1] && committed <= history
    }

    /** The query is one the store can evaluate. */
    ghost predicate Answerable() {
      ValidLiveQuery(query, store.storage.Fields()) && AnswersQuery(answer, query, store.texts)
    }

    /** The cursor shows the rows as last committed. */
    ghost predicate UpToDate()
      reads this`cursor, store.storage.rowChangeJournal`history
    {
      Shows(cursor, store.Head(), answer)
    }

    /** What being notified makes of a subscription whose cursor stood at `was` with `waiting` events: when the
        table shows the same, nothing; when it shows something else, the delta to it waits too, or, exactly if there
        was no room for it, the subscription is closed. */
    ghost predicate Notified(was: QueryEvaluation, waiting: seq<LiveEvent>, head: Table)
      reads this, events
    {
      && (closed <==> !Shows(was, head, answer) && |waiting| >= events.capacity)
      && (!closed && Shows(was, head, answer) ==> events.queue == waiting && cursor == was)
      && (!closed && !Shows(was, head, answer) ==>
            && |events.queue| == |waiting| + 1 && events.queue[..|waiting|] == waiting
            && IsDelta(events.queue[|waiting|], was, cursor))
    }

    /** Leases the query and queues the snapshot the cursor starts from. */
    constructor (store: Store, query: LiveQuery, capacity: nat, ghost answer: Answer)
      requires store.Valid() && ValidLiveQuery(query, store.storage.Fields()) && capacity > 0
      requires AnswersQuery(answer, query, store.texts) && Answering(answer)
      modifies store`activeQueries, store`leases, store.storage`orderedSlotIndexes, store.storage`scalarPredicateIndexes
      modifies store.storage.rowChangeJournal
      ensures Told() && OnHistory(store.History()) && UpToDate() && Answerable() && !closed
      ensures this.store == store && this.query == query && this.answer == answer && fresh(events)
      ensures events.consumed == [] && events.capacity == capacity && events.queue == [SnapshotOf(cursor)]
      ensures store.Valid() && store.History() == old(store.History())
      ensures store.leases == old(store.leases) + multiset{LeaseOf(query, store.texts)}
    {
      hide Store.Valid, ValidLiveQuery, AnswersQuery, Tells;
      var cursor, queue, rows := LeaseWithSnapshot(store, query, capacity, answer);
      this.store, this.query, this.events, this.answer := store, query, queue, answer;
      this.cursor, this.closed, this.evaluations, this.tables := cursor, false, [cursor], [rows];
      this.committed := store.History();
    }

    /** The subscriber's next event: nothing is told when nothing it sees has changed, and when its queue is
        full the subscription is closed and says so. */
    method Notify()
      requires Told() && OnHistory(store.History()) && Answerable() && store.Valid() && !closed
      requires LeaseOf(query, store.texts) in store.leases
      modifies this, events, store`activeQueries, store`leases, store.storage`orderedSlotIndexes
      modifies store.storage`scalarPredicateIndexes, store.storage.rowChangeJournal
      ensures Told() && store.Valid() && store.History() == old(store.History())
      ensures Notified(old(cursor), old(events.queue), store.Head())
      ensures events.consumed == old(events.consumed)
      ensures !closed ==> OnHistory(store.History()) && UpToDate() && store.leases == old(store.leases)
      ensures closed ==>
        && events.queue == [BackpressureStatus()]
        && store.leases == old(store.leases) - multiset{LeaseOf(query, store.texts)}
    {
      hide Store.Valid, Answerable, BackpressureStatus, Told, OnHistory, IsDelta;
      var event, evaluation, rows := Observe();
      if event.Some? {
        Deliver(event.value, evaluation, rows);
      }
    }

    lemma CursorShows(history: seq<Table>)
      requires Told() && OnHistory(history)
      ensures cursor.version < |history| && Shows(cursor, history[cursor.version], answer)
    {
      assert CommittedAt(evaluations, tables, committed, |evaluations| - 1);
      ToldAt(events.produced, evaluations, tables, answer, |evaluations| - 1);
    }

    /** The query's evaluation now, and the delta to it from where the cursor stands. */
    method Observe() returns (event: Option<LiveEvent>, evaluation: QueryEvaluation, ghost rows: Table)
      requires Told() && OnHistory(store.History()) && Answerable() && store.Valid()
      requires LeaseOf(query, store.texts) in store.leases
      modifies store`activeQueries, store.storage`orderedSlotIndexes, store.storage`scalarPredicateIndexes
      modifies store.storage.rowChangeJournal
      ensures store.Valid() && store.History() == old(store.History())
      ensures evaluation.version == |store.History()| - 1 && rows == store.Head() && Shows(evaluation, rows, answer)
      ensures event.None? <==> UpToDate()
      ensures event.Some? ==> IsDelta(event.value, cursor, evaluation)
    {
      hide Store.Valid, WereCommitted, Tells, Shows;
      CursorShows(store.History());
      ghost var before := store.History()[cursor.version];
      rows := store.Head();
      evaluation := store.Evaluate(query, answer);
      event := NextEvent(cursor, evaluation, before, rows, answer);
      ShownAlike(cursor, evaluation, rows, answer);
    }

    /** Offers the delta; a full queue closes the subscription. */
    method Deliver(event: LiveEvent, evaluation: QueryEvaluation, ghost rows: Table)
      requires Told() && OnHistory(store.History()) && store.Valid() && !closed
      requires Shows(evaluation, rows, answer) && IsDelta(event, cursor, evaluation) && !UpToDate()
      requires evaluation.version == |store.History()| - 1 && rows == store.Head()
      modifies this, events, store`activeQueries, store`leases, store.storage`orderedSlotIndexes
      modifies store.storage`scalarPredicateIndexes, store.storage.rowChangeJournal
      ensures Told() && store.Valid() && store.History() == old(store.History())
      ensures Notified(old(cursor), old(events.queue), store.Head())
      ensures events.consumed == old(events.consumed)
      ensures !closed ==> OnHistory(store.History()) && UpToDate() && store.leases == old(store.leases)
      ensures closed ==>
        && events.queue == [BackpressureStatus()]
        && store.leases == old(store.leases) - multiset{LeaseOf(query, store.texts)}
    {
      hide Store.Valid, WereCommitted, Tells, IsDelta;
      var offered := TellDelta(event, evaluation, store.History());
      if !offered {
        CloseWith(BackpressureStatus());
      }
    }

    /** Moves the cursor on and offers the delta. */
    method TellDelta(event: LiveEvent, evaluation: QueryEvaluation, ghost history: seq<Table>) returns (offered: bool)
      requires Told() && !closed && OnHistory(history) && IsDelta(event, cursor, evaluation)
      requires evaluation.version < |history| && Shows(evaluation, history[evaluation.version], answer)
      modifies this`cursor, this`evaluations, this`tables, this`committed, events
      ensures Told() && !events.ended && cursor == evaluation && events.consumed == old(events.consumed)
      ensures offered <==> |old(events.queue)| < events.capacity
      ensures offered ==> OnHistory(history) && events.queue == old(events.queue) + [event]
    {
      ghost var rows := history[evaluation.version];
      TellsMore(events.produced, evaluations, tables, answer, event, evaluation, rows);
      OneMoreWasCommitted(evaluations, tables, committed, history, evaluation);
      cursor := evaluation;
      offered := events.Offer(event);
      if offered {
        evaluations, tables, committed := evaluations + [evaluation], tables + [rows], history;
      }
    }

    /** Gives the lease back and drops whatever waits for one last status. */
    method CloseWith(status: LiveEvent)
      requires Told() && !events.ended && store.Valid() && status.StatusEvent? && status.status == Closed
      modifies this`closed, events, store`activeQueries, store`leases, store.storage`orderedSlotIndexes
      modifies store.storage`scalarPredicateIndexes, store.storage.rowChangeJournal
      ensures Told() && closed && events.queue == [status] && events.consumed == old(events.consumed)
      ensures store.Valid() && store.History() == old(store.History())
      ensures store.leases == old(store.leases) - multiset{LeaseOf(query, store.texts)}
    {
      hide Store.Valid, WereCommitted, Tells, Answering;
      closed := true;
      store.Release(query);
      events.CutOffWith(status);
    }

    /** The subscriber leaves; the lease is given back once, and what waits can still be read. */
    method Close()
      requires Told() && store.Valid()
      modifies this`closed, events, store`activeQueries, store`leases, store.storage`orderedSlotIndexes
      modifies store.storage`scalarPredicateIndexes, store.storage.rowChangeJournal
      ensures Told() && closed && store.Valid() && store.History() == old(store.History())
      ensures events.queue == old(events.queue) && events.consumed == old(events.consumed)
      ensures store.leases ==
              old(store.leases) - if old(closed) then multiset{} else multiset{LeaseOf(query, store.texts)}
    {
      hide Store.Valid, WereCommitted, Tells, Answering;
      if closed {
        return;
      }
      closed := true;
      store.Release(query);
      events.End();
    }

    /** What a client knows that has replayed everything it read: nothing yet, or exactly what the query
        showed of a committed table, or that the subscription is closed. */
    lemma ClientIsExactOrClosed()
      requires Told()
      ensures
        || events.consumed == []
        || KnowsTold(Replayed(events.consumed), |events.consumed|, evaluations, tables, answer)
        || (events.terminal.Some? && KnowsClosed(Replayed(events.consumed)))
      ensures !closed && events.queue == [] ==>
        events.consumed != [] && KnowsTold(Replayed(events.consumed), |evaluations|, evaluations, tables, answer)
    {
      events.ConsumerReadsWithoutGap();
      if events.consumed != [] && events.consumed <= events.produced {
        ClientKnowsTold(events.consumed, events.produced, evaluations, tables, answer);
      }
    }
  }
}
