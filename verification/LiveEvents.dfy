/** The events of a live query, and what a client that replays them knows. */
module LiveEvents {
  import opened Values
  import opened Rows
  import opened LiveProtocol
  import opened ClientState
  import opened QueryDelta
  import opened LiveAnswers

  function SnapshotOf(evaluation: QueryEvaluation): LiveEvent {
    SnapshotEvent(evaluation.version, KeysOf(evaluation.window), RowsOf(evaluation.window), evaluation.totalRows)
  }

  /** A delta from one evaluation to a later one: its operations turn the one window into the other. */
  ghost predicate IsDelta(event: LiveEvent, previous: QueryEvaluation, next: QueryEvaluation) {
    && event.DeltaEvent?
    && event.fromVersion == previous.version && event.toVersion == next.version && event.totalRows == next.totalRows
    && previous.version < next.version
    && ApplyOperations(previous.window, event.operations) == Some(next.window)
    && OnlyNeeded(event.operations, previous.window, next.window)
  }

  /** The `i`-th event brings the subscriber to the `i`-th evaluation, which shows the `i`-th table. */
  ghost predicate TellsAt(events: seq<LiveEvent>, evaluations: seq<QueryEvaluation>, tables: seq<Table>, answer: Answer,
                          i: nat)
  {
    && i < |events| && i < |evaluations| && i < |tables|
    && Shows(evaluations[i], tables[i], answer)
    && if i == 0 then events[0] == SnapshotOf(evaluations[0])
      else IsDelta(events[i], evaluations[i - 1], evaluations[i])
  }

  ghost predicate Tells(events: seq<LiveEvent>, evaluations: seq<QueryEvaluation>, tables: seq<Table>, answer: Answer) {
    && |events| == |evaluations| == |tables|
    && forall i {:trigger TellsAt(events, evaluations, tables, answer, i)} | 0 <= i < |events| ::
         TellsAt(events, evaluations, tables, answer, i)
  }

  lemma TellsMore(events: seq<LiveEvent>, evaluations: seq<QueryEvaluation>, tables: seq<Table>, answer: Answer,
                  event: LiveEvent, evaluation: QueryEvaluation, rows: Table)
    requires Tells(events, evaluations, tables, answer) && Shows(evaluation, rows, answer)
    requires if events == [] then event == SnapshotOf(evaluation)
      else IsDelta(event, evaluations[|evaluations| - 1], evaluation)
    ensures Tells(events + [event], evaluations + [evaluation], tables + [rows], answer)
  {
    forall i | 0 <= i < |events + [event]|
      ensures TellsAt(events + [event], evaluations + [evaluation], tables + [rows], answer, i)
    {
      if i < |events| {
        assert TellsAt(events, evaluations, tables, answer, i);
      }
    }
  }

  lemma TellsSnapshot(evaluation: QueryEvaluation, rows: Table, answer: Answer)
    requires Shows(evaluation, rows, answer)
    ensures Tells([SnapshotOf(evaluation)], [evaluation], [rows], answer)
  {
    TellsMore([], [], [], answer, SnapshotOf(evaluation), evaluation, rows);
    assert [] + [SnapshotOf(evaluation)] == [SnapshotOf(evaluation)] && [] + [evaluation] == [evaluation]
      && [] + [rows] == [rows];
  }

  lemma ToldAt(events: seq<LiveEvent>, evaluations: seq<QueryEvaluation>, tables: seq<Table>, answer: Answer, i: nat)
    requires Tells(events, evaluations, tables, answer) && i < |events|
    ensures Shows(evaluations[i], tables[i], answer)
  {
    assert TellsAt(events, evaluations, tables, answer, i);
  }

  // ----- The next event -----

  /** What a cursor moves on to: the delta that tells the next evaluation, or nothing when the subscriber
      would see no difference. */
  method NextEvent(previous: QueryEvaluation, next: QueryEvaluation, ghost before: Table, ghost rows: Table,
                   ghost answer: Answer)
    returns (event: Option<LiveEvent>)
    requires Answering(answer) && Shows(previous, before, answer) && Shows(next, rows, answer)
    requires previous.version <= next.version && (previous.version == next.version ==> before == rows)
    ensures event.None? <==> previous.window == next.window && previous.totalRows == next.totalRows
    ensures event.Some? ==> IsDelta(event.value, previous, next)
    ensures event.None? ==> Shows(previous, rows, answer)
  {
    assert Presentable(answer(before)) && Presentable(answer(rows));
    var operations := DeltaOperations(previous.window, next.window);
    if operations == [] && previous.totalRows == next.totalRows {
      return None;
    }
    return Some(DeltaEvent(previous.version, next.version, operations, next.totalRows));
  }

  // ----- The client -----

  /** The client's state after some events. */
  ghost function Replayed(events: seq<LiveEvent>): (state: State)
    ensures |state.rows| == |state.keys|
  {
    if events == [] then INITIAL else Next(Replayed(events[..|events| - 1]), events[|events| - 1])
  }

  /** The state of a client that knows exactly an evaluation. */
  function Knows(evaluation: QueryEvaluation): State {
    State(RowsOf(evaluation.window), KeysOf(evaluation.window), evaluation.totalRows, evaluation.version, Ready,
          Some("Ready"), None)
  }

  lemma SnapshotIsReplayed(state: State, evaluation: QueryEvaluation)
    requires |state.rows| == |state.keys| && Presentable(Shown(evaluation.window, evaluation.totalRows))
    ensures Next(state, SnapshotOf(evaluation)) == Knows(evaluation)
  {
    assert DistinctStrings(KeysOf(evaluation.window));
  }

  lemma DeltaIsReplayed(event: LiveEvent, previous: QueryEvaluation, next: QueryEvaluation)
    requires IsDelta(event, previous, next) && next.totalRows >= |next.window|
    ensures Next(Knows(previous), event) == Knows(next)
  {
    assert Zip(KeysOf(previous.window), RowsOf(previous.window)) == previous.window;
  }

  /** After any number of its events, a client that started from nothing knows exactly the evaluation the
      last of them told: versions chain from event to event, and no operation is refused. */
  lemma {:induction false} ClientFollows(events: seq<LiveEvent>, evaluations: seq<QueryEvaluation>, tables: seq<Table>,
                                         answer: Answer, n: nat)
    requires Answering(answer) && Tells(events, evaluations, tables, answer) && 1 <= n <= |events|
    ensures Replayed(events[..n]) == Knows(evaluations[n - 1])
    decreases n
  {
    assert TellsAt(events, evaluations, tables, answer, n - 1);
    assert Presentable(answer(tables[n - 1]));
    assert events[..n][..n - 1] == events[..n - 1];
    if n == 1 {
      SnapshotIsReplayed(INITIAL, evaluations[0]);
    } else {
      ClientFollows(events, evaluations, tables, answer, n - 1);
      DeltaIsReplayed(events[n - 1], evaluations[n - 2], evaluations[n - 1]);
    }
  }

  /** The client knows the `n`-th evaluation, which shows the `n`-th table. */
  ghost predicate KnowsTold(state: State, n: nat, evaluations: seq<QueryEvaluation>, tables: seq<Table>,
                            answer: Answer)
  {
    && 1 <= n <= |evaluations| && n <= |tables|
    && state == Knows(evaluations[n - 1]) && Shows(evaluations[n - 1], tables[n - 1], answer)
  }

  /** The client holds no rows and knows it is closed. */
  predicate KnowsClosed(state: State) {
    state.status == Closed && state.rows == [] && state.keys == []
  }

  lemma ClientKnowsTold(consumed: seq<LiveEvent>, produced: seq<LiveEvent>, evaluations: seq<QueryEvaluation>,
                        tables: seq<Table>, answer: Answer)
    requires Answering(answer) && Tells(produced, evaluations, tables, answer) && consumed <= produced && consumed != []
    ensures KnowsTold(Replayed(consumed), |consumed|, evaluations, tables, answer)
  {
    var n := |consumed|;
    assert produced[..n] == consumed;
    ClientFollows(produced, evaluations, tables, answer, n);
    ToldAt(produced, evaluations, tables, answer, n - 1);
  }
}
