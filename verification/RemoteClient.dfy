/** End to end: a client that replays what a remote subscription delivers, against the store it asked. */
module RemoteClient {
  import opened Rows
  import opened LiveProtocol
  import opened ClientState
  import opened LiveAnswers
  import opened LiveEvents
  import R = RemoteSubscription

  predicate KnowsItMayBeOld(state: State) {
    state.status == Closed || state.status == Stale || state.status == Failed
  }

  /** The client shows nothing, or exactly what the `n`-th evaluation told it. */
  ghost predicate HoldsTold(state: State, n: nat, evaluations: seq<QueryEvaluation>) {
    || (state.rows == [] && state.keys == [])
    || (1 <= n <= |evaluations| && state.rows == RowsOf(evaluations[n - 1].window) && state.keys ==
      KeysOf(evaluations[n - 1].window)
        && state.totalRows == evaluations[n - 1].totalRows && state.version == evaluations[n - 1].version)
  }

  lemma StatusKeepsTold(state: State, event: LiveEvent, n: nat, evaluations: seq<QueryEvaluation>)
    requires |state.rows| == |state.keys| && HoldsTold(state, n, evaluations) && R.EndsReadiness(event)
    ensures HoldsTold(Next(state, event), n, evaluations) && KnowsItMayBeOld(Next(state, event))
  {
  }

  /** A client that has read a gap-free prefix of what was told, and statuses after it, knows exactly the last
      evaluation it was told; or it shows that evaluation, or nothing, and knows that it may be old. */
  lemma {:induction false} ClientOfGaplessEvents(consumed: seq<LiveEvent>, produced: seq<LiveEvent>, n: nat, extra: nat,
                                                 evaluations: seq<QueryEvaluation>, tables: seq<Table>, answer: Answer)
    requires Answering(answer) && Tells(produced, evaluations, tables, answer)
    requires R.Gapless(consumed, produced, n, extra) && consumed != []
    ensures |consumed| == n ==> KnowsTold(Replayed(consumed), n, evaluations, tables, answer)
    ensures |consumed| > n ==> KnowsItMayBeOld(Replayed(consumed))
    ensures HoldsTold(Replayed(consumed), n, evaluations)
    decreases extra
  {
    var last := |consumed| - 1;
    if last + 1 == n {
      assert consumed[..n] == consumed;
      ClientKnowsTold(consumed, produced, evaluations, tables, answer);
    } else {
      var before := consumed[..last];
      if before != [] {
        assert before[..n] == consumed[..n];
        ClientOfGaplessEvents(before, produced, n, extra - 1, evaluations, tables, answer);
      }
      StatusKeepsTold(Replayed(before), consumed[last], n, evaluations);
    }
  }

  /** A client that has read something from the second queue knows exactly what the query showed of a
      committed table, or it shows that or nothing and knows that it may be old. */
  lemma RemoteClientIsExactOrTold(remote: R.RemoteSubscription, evaluations: seq<QueryEvaluation>, tables: seq<Table>,
                                  answer: Answer)
    returns (n: nat)
    requires remote.Valid() && remote.queue.consumed != []
    requires Answering(answer) && Tells(remote.source.produced, evaluations, tables, answer)
    ensures
      var state := Replayed(remote.queue.consumed);
      || KnowsTold(state, n, evaluations, tables, answer)
      || (KnowsItMayBeOld(state) && HoldsTold(state, n, evaluations))
  {
    n := remote.ReadsWithoutGap();
    ClientOfGaplessEvents(remote.queue.consumed, remote.source.produced, n, 2, evaluations, tables, answer);
  }

  /** Once both queues of an open connection are drained, the client knows the last evaluation it was told. */
  lemma DrainedRemoteClientIsCurrent(remote: R.RemoteSubscription, evaluations: seq<QueryEvaluation>,
                                     tables: seq<Table>, answer: Answer)
    requires remote.Valid() && remote.running && remote.source.produced != [] && !remote.source.ended
    requires Answering(answer) && Tells(remote.source.produced, evaluations, tables, answer)
    requires remote.source.queue == [] && remote.queue.queue == []
    ensures Replayed(remote.queue.consumed) == Knows(evaluations[|evaluations| - 1])
  {
    var n := remote.ReadsWithoutGap();
    ClientKnowsTold(remote.queue.consumed, remote.source.produced, evaluations, tables, answer);
  }

  // ----- What the client shows -----

  /** The client shows, row for row, the answer on the table committed at the version it reports. */
  ghost predicate ShowsCommitted(state: State, committed: seq<Table>, answer: Answer) {
    && 0 <= state.version < |committed| && |state.rows| == |state.keys|
    && Shown(Zip(state.keys, state.rows), state.totalRows) == answer(committed[state.version])
  }

  /** A ready client shows a committed table exactly; one that is not shows that or nothing, and knows that it
      may be old. */
  ghost predicate ExactOrKnown(state: State, committed: seq<Table>, answer: Answer) {
    || (state.status == Ready && ShowsCommitted(state, committed, answer))
    || (KnowsItMayBeOld(state) && (ShowsCommitted(state, committed, answer) || (state.rows == [] && state.keys == [])))
  }

  lemma ToldIsCommitted(state: State, evaluation: QueryEvaluation, rows: Table, committed: seq<Table>, answer: Answer)
    requires Shows(evaluation, rows, answer) && evaluation.version < |committed|
    requires rows == committed[evaluation.version]
    requires state.rows == RowsOf(evaluation.window) && state.keys == KeysOf(evaluation.window)
    requires state.totalRows == evaluation.totalRows && state.version == evaluation.version
    ensures ShowsCommitted(state, committed, answer)
  {
    assert Zip(state.keys, state.rows) == evaluation.window;
  }
}
