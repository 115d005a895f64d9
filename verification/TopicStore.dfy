/** A topic: its rows, its active queries and the leases on them. */
module TopicStore {
  import opened Sums
  import opened Rows
  import opened QueryValueText
  import opened LiveAnswers
  import opened ChangeJournal
  import opened RowStorage
  import opened RetainedWindow
  import opened ActiveRawQuery
  import opened GroupedBatches
  import opened GroupedExecution
  import opened LiveQueries
  import opened Registry

  class Store {
    const storage: TopicRowStorage
    const texts: NumberTexts
    const limits: GroupedIncrementalAdmissionLimits
    var activeQueries: ActiveQueries
    /** The leases that have been taken and not given back. */
    ghost var leases: multiset<Lease>

    function QueryTerms(): Terms {
      Terms(storage.Fields(), texts, limits)
    }

    /** Between mutations: the rows are valid and settled, every execution serves its cache key and counts its
        leases, and the journal is held exactly once for every raw execution and every grouped execution that
        is still incremental. */
    ghost predicate Valid()
      reads this, storage, storage.rowChangeJournal
    {
      && storage.Valid() && storage.rowChangeJournal.Settled() && storage.rowChangeJournal.Ready()
      && Registered(activeQueries, leases, storage.rowChangeJournal.history, QueryTerms())
      && storage.rowChangeJournal.refs == Holders(activeQueries)
    }

    /** The committed tables. */
    ghost function History(): seq<Table>
      reads storage.rowChangeJournal`history
    {
      storage.rowChangeJournal.history
    }

    /** The table as last committed. */
    ghost function Head(): Table
      reads storage.rowChangeJournal`history
    {
      if History() == [] then map[] else History()[|History()| - 1]
    }

    /** Between mutations the last committed table is what the store holds. */
    lemma HeadIsStored()
      requires Valid()
      ensures History() != [] && Head() == storage.Stored() && storage.versionValue == |History()| - 1
    {
    }

    lemma VersionIsLast()
      requires Valid()
      ensures History() != [] && storage.versionValue == |History()| - 1
    {
    }

    constructor (storage: TopicRowStorage, texts: NumberTexts, limits: GroupedIncrementalAdmissionLimits)
      requires storage.Valid() && storage.rowChangeJournal.Settled() && storage.rowChangeJournal.Ready()
      requires storage.rowChangeJournal.refs == 0 && TellsNumbersApart(texts)
      ensures Valid() && this.storage == storage && this.texts == texts && this.limits == limits
      ensures activeQueries == ActiveQueries(map[], map[]) && leases == multiset{}
    {
      this.storage, this.texts, this.limits := storage, texts, limits;
      activeQueries, leases := ActiveQueries(map[], map[]), multiset{};
      new;
      RegisteredEmpty(History(), QueryTerms());
    }

    // ----- Mutations -----

    /** Stores rows in one mutation; it commits a version exactly when a row changed. */
    method Publish(prepared: seq<PreparedTopicRow>) returns (rowsChanged: nat)
      requires Valid() && forall p | p in prepared :: WellTyped(p.row, storage.metadata)
      modifies storage, storage.rowChangeJournal
      ensures Valid() && storage.Stored() == PutAll(old(storage.Stored()), prepared)
      ensures rowsChanged == |ChangesAt(old(storage.Stored()), prepared)|
      ensures History() ==
              old(History()) + if ChangesAt(old(storage.Stored()), prepared) == {} then [] else [storage.Stored()]
    {
      rowsChanged := storage.SetPreparedMany(prepared);
      CommitIfChanged(rowsChanged, storage.rowChangeJournal.history, storage.Stored());
    }

    /** Deletes a row in one mutation. */
    method Delete(key: string) returns (rowsChanged: nat)
      requires Valid()
      modifies storage, storage.rowChangeJournal
      ensures Valid() && storage.Stored() == old(storage.Stored()) - {key}
      ensures rowsChanged == if key in old(storage.Stored()) then 1 else 0
      ensures History() == old(History()) + if key in old(storage.Stored()) then [storage.Stored()] else []
    {
      rowsChanged := storage.Delete(key);
      CommitIfChanged(rowsChanged, storage.rowChangeJournal.history, storage.Stored());
    }

    method CommitIfChanged(rowsChanged: nat, ghost history: seq<Table>, ghost rows: Table)
      requires storage.Valid() && storage.rowChangeJournal.Ready()
      requires history == storage.rowChangeJournal.history && rows == storage.Stored()
      requires rowsChanged == 0 ==> storage.rowChangeJournal.Settled()
      requires Registered(activeQueries, leases, history, QueryTerms())
      requires storage.rowChangeJournal.refs == Holders(activeQueries)
      modifies storage`versionValue, storage.rowChangeJournal
      ensures Valid() && storage.Stored() == rows
      ensures History() == if rowsChanged == 0 then history else history + [rows]
    {
      hide Registered;
      if rowsChanged > 0 {
        RegisteredAfterCommit(activeQueries, leases, history, rows, QueryTerms());
        var version := storage.AdvanceVersion();
      }
    }

    // ----- Raw leases -----

    /** Takes a lease of a window of the query, on the execution shared by all queries with its key. */
    method AcquireRaw(compiled: CompiledRawQuery)
      requires Valid() && ValidQuery(compiled, storage.Fields())
      modifies this`activeQueries, this`leases, storage`orderedSlotIndexes, storage`scalarPredicateIndexes
      modifies storage.rowChangeJournal
      ensures Valid() && storage.Stored() == old(storage.Stored()) && History() == old(History())
      ensures leases == old(leases) + multiset{LeaseOf(RawLive(compiled), texts)}
    {
      if QueryCacheKey(compiled, texts) in activeQueries.raw {
        AcquireExisting(QueryCacheKey(compiled, texts), compiled.window);
      } else {
        AcquireNew(QueryCacheKey(compiled, texts), compiled);
      }
    }

    method AcquireExisting(key: string, window: Window)
      requires Valid() && key in activeQueries.raw
      modifies this`activeQueries, this`leases
      ensures Valid() && leases == old(leases) + multiset{RawLease(key, window)}
    {
      hide Registered, TopicRowStorage.Valid, ValidQuery, QueryCacheKey, Current;
      CountsOf(activeQueries, leases, History(), QueryTerms(), key);
      var x := AcquireRawQueryWindow(activeQueries.raw[key], window);
      RegisteredWithRaw(activeQueries, leases, History(), QueryTerms(), key, x,
                        leases + multiset{RawLease(key, window)});
      activeQueries := activeQueries.(raw := activeQueries.raw[key := x]);
      leases := leases + multiset{RawLease(key, window)};
    }

    method AcquireNew(key: string, compiled: CompiledRawQuery)
      requires Valid() && ValidQuery(compiled, storage.Fields()) && key == QueryCacheKey(compiled, texts)
      requires key !in activeQueries.raw
      modifies this`activeQueries, this`leases, storage`orderedSlotIndexes, storage`scalarPredicateIndexes
      modifies storage.rowChangeJournal
      ensures Valid() && storage.Stored() == old(storage.Stored()) && History() == old(History())
      ensures leases == old(leases) + multiset{RawLease(key, compiled.window)}
    {
      hide Registered, TopicRowStorage.Valid, Remembers, ValidQuery, QueryCacheKey, IsBaseLimit, LooksAhead;
      var x := MakeRawQueryExecution(storage, compiled);
      storage.RetainChanges();
      CountsOf(activeQueries, leases, History(), QueryTerms(), key);
      RegisteredWithRaw(activeQueries, leases, History(), QueryTerms(), key, x,
                        leases + multiset{RawLease(key, compiled.window)});
      activeQueries := activeQueries.(raw := activeQueries.raw[key := x]);
      leases := leases + multiset{RawLease(key, compiled.window)};
    }

    /** Gives a lease back. The last lease of an execution drops it and releases the journal once; without a
        lease nothing happens. */
    method ReleaseRaw(compiled: CompiledRawQuery)
      requires Valid()
      modifies this`activeQueries, this`leases, storage`orderedSlotIndexes, storage`scalarPredicateIndexes
      modifies storage.rowChangeJournal
      ensures Valid() && storage.Stored() == old(storage.Stored()) && History() == old(History())
      ensures leases == old(leases) - multiset{LeaseOf(RawLive(compiled), texts)}
    {
      hide Registered, TopicRowStorage.Valid, Remembers, ValidQuery, QueryCacheKey;
      var key := QueryCacheKey(compiled, texts);
      CountsOf(activeQueries, leases, History(), QueryTerms(), key);
      if key !in activeQueries.raw {
        assert leases - multiset{RawLease(key, compiled.window)} == leases;
        return;
      }
      var released := ReleaseRawQueryWindow(activeQueries.raw[key].windows, compiled.window);
      if released.None? {
        assert leases - multiset{RawLease(key, compiled.window)} == leases;
        return;
      }
      if activeQueries.raw[key].refs > 1 {
        KeepExecution(key, released.value, compiled.window);
      } else {
        DropExecution(key, released.value, compiled.window);
      }
    }

    /** An execution with one lease fewer, brought up to date for the windows that are left. */
    method LatestWithFewerWindows(key: string, windows: map<Window, nat>) returns (x: RawQueryExecution)
      requires Valid() && key in activeQueries.raw && activeQueries.raw[key].refs > 1
      requires SumOf(windows) == activeQueries.raw[key].refs - 1 && forall w | w in windows :: windows[w] > 0
      modifies storage`orderedSlotIndexes, storage`scalarPredicateIndexes
      ensures storage.Valid() && storage.Stored() == old(storage.Stored())
      ensures Serves(x, key, History(), QueryTerms()) && x.windows == windows
    {
      hide Registered, TopicRowStorage.Valid, ValidQuery, QueryCacheKey, Current, TopicRowChangeJournal.Settled,
          TopicRowChangeJournal.Ready;
      CountsOf(activeQueries, leases, History(), QueryTerms(), key);
      x := Latest(activeQueries.raw[key].(windows := windows, refs := activeQueries.raw[key].refs - 1), storage);
    }

    /** The execution goes on with fewer leases; its base window may have become smaller. */
    method KeepExecution(key: string, windows: map<Window, nat>, ghost released: Window)
      requires Valid() && key in activeQueries.raw && activeQueries.raw[key].refs > 1
      requires SumOf(windows) == activeQueries.raw[key].refs - 1 && forall w | w in windows :: windows[w] > 0
      requires forall w ::
        (leases - multiset{RawLease(key, released)})[RawLease(key, w)] == if w in windows then windows[w] else 0
      modifies this`activeQueries, this`leases, storage`orderedSlotIndexes, storage`scalarPredicateIndexes
      ensures Valid() && storage.Stored() == old(storage.Stored()) && History() == old(History())
      ensures leases == old(leases) - multiset{RawLease(key, released)}
    {
      hide Registered, TopicRowStorage.Valid, Serves, TopicRowChangeJournal.Settled, TopicRowChangeJournal.Ready;
      CountsOf(activeQueries, leases, History(), QueryTerms(), key);
      var x := LatestWithFewerWindows(key, windows);
      RegisteredWithRaw(activeQueries, leases, History(), QueryTerms(), key, x,
                        leases - multiset{RawLease(key, released)});
      activeQueries := activeQueries.(raw := activeQueries.raw[key := x]);
      leases := leases - multiset{RawLease(key, released)};
    }

    method DropExecution(key: string, windows: map<Window, nat>, ghost released: Window)
      requires Valid() && key in activeQueries.raw && SumOf(windows) == 0
      requires forall w | w in windows :: windows[w] > 0
      requires forall w ::
        (leases - multiset{RawLease(key, released)})[RawLease(key, w)] == if w in windows then windows[w] else 0
      modifies this`activeQueries, this`leases, storage.rowChangeJournal
      ensures Valid() && storage.Stored() == old(storage.Stored()) && History() == old(History())
      ensures leases == old(leases) - multiset{RawLease(key, released)}
      ensures storage.rowChangeJournal.refs == old(storage.rowChangeJournal.refs) - 1
    {
      hide Registered, TopicRowStorage.Valid, Serves;
      storage.ReleaseChanges();
      NoRefsNoWindows(windows);
      RegisteredWithoutRaw(activeQueries, leases, History(), QueryTerms(), key,
                           leases - multiset{RawLease(key, released)});
      activeQueries := activeQueries.(raw := activeQueries.raw - {key});
      leases := leases - multiset{RawLease(key, released)};
    }

    /** The execution of a leased query, brought up to date, and what the lease sees: the slice of its query's
        view on the table as it is now, with the exact total. */
    method LatestOfWindow(compiled: CompiledRawQuery, key: string, ghost rows: Table)
      returns (x: RawQueryExecution, evaluation: QueryEvaluation)
      requires Valid() && ValidQuery(compiled, storage.Fields()) && LeaseOf(RawLive(compiled), texts) in leases
      requires key == QueryCacheKey(compiled, texts) && rows == storage.Stored()
      modifies storage`orderedSlotIndexes, storage`scalarPredicateIndexes
      ensures storage.Valid() && storage.Stored() == old(storage.Stored())
      ensures key in activeQueries.raw && Serves(x, key, History(), QueryTerms())
      ensures x.windows == activeQueries.raw[key].windows
      ensures x.snapshot.version == storage.versionValue && IsBaseLimit(x.baseLimit, x.windows.Keys)
      ensures evaluation.version == storage.versionValue && ShownIs(evaluation, RawLive(compiled), texts, rows)
    {
      hide Registered, TopicRowStorage.Valid;
      CountsOf(activeQueries, leases, History(), QueryTerms(), key);
      x, evaluation := LatestEvaluation(activeQueries.raw[key], storage, compiled, texts);
    }

    /** The execution under the key keeps the evaluation of the current version, as large as its windows need. */
    ghost predicate RemembersTheHead(key: string)
      reads this, storage
    {
      && key in activeQueries.raw && activeQueries.raw[key].snapshot.version == storage.versionValue
      && IsBaseLimit(activeQueries.raw[key].baseLimit, activeQueries.raw[key].windows.Keys)
    }

    /** What a raw lease sees. */
    method EvaluateRaw(compiled: CompiledRawQuery, ghost rows: Table, ghost answer: Answer)
      returns (evaluation: QueryEvaluation)
      requires Valid() && ValidQuery(compiled, storage.Fields()) && LeaseOf(RawLive(compiled), texts) in leases
      requires rows == storage.Stored() && AnswersQuery(answer, RawLive(compiled), texts)
      modifies this`activeQueries, storage`orderedSlotIndexes, storage`scalarPredicateIndexes
      ensures Valid() && storage.Stored() == old(storage.Stored()) && History() == old(History())
      ensures evaluation.version == storage.versionValue && Shows(evaluation, rows, answer)
      ensures RemembersTheHead(QueryCacheKey(compiled, texts))
    {
      hide Registered, TopicRowStorage.Valid, Serves;
      var key := QueryCacheKey(compiled, texts);
      var x;
      x, evaluation := LatestOfWindow(compiled, key, rows);
      CountsOf(activeQueries, leases, History(), QueryTerms(), key);
      RegisteredWithRaw(activeQueries, leases, History(), QueryTerms(), key, x, leases);
      activeQueries := activeQueries.(raw := activeQueries.raw[key := x]);
      ShownIsAnswer(evaluation, RawLive(compiled), texts, rows, answer);
    }

    // ----- Grouped leases -----

    method HoldJournal(hold: bool)
      requires storage.Valid() && storage.rowChangeJournal.Settled() && storage.rowChangeJournal.Ready()
      modifies storage.rowChangeJournal
      ensures storage.Valid() && storage.rowChangeJournal.Settled() && storage.rowChangeJournal.Ready()
      ensures storage.Stored() == old(storage.Stored()) && History() == old(History())
      ensures storage.rowChangeJournal.refs == old(storage.rowChangeJournal.refs) + if hold then 1 else 0
    {
      if hold {
        storage.RetainChanges();
      }
    }

    method LetGoOfJournal(letGo: bool)
      requires storage.Valid() && storage.rowChangeJournal.Settled() && storage.rowChangeJournal.Ready()
      requires letGo ==> storage.rowChangeJournal.refs > 0
      modifies storage.rowChangeJournal
      ensures storage.Valid() && storage.rowChangeJournal.Settled() && storage.rowChangeJournal.Ready()
      ensures storage.Stored() == old(storage.Stored()) && History() == old(History())
      ensures storage.rowChangeJournal.refs == old(storage.rowChangeJournal.refs) - if letGo then 1 else 0
    {
      if letGo {
        storage.ReleaseChanges();
      }
    }

    /** Takes a lease of a grouped query; a new execution that is incremental holds the journal. */
    method AcquireGrouped(query: GroupedLiveQuery)
      requires Valid() && ValidGroupedQuery(query)
      modifies this`activeQueries, this`leases, storage.rowChangeJournal
      ensures Valid() && storage.Stored() == old(storage.Stored()) && History() == old(History())
      ensures leases == old(leases) + multiset{LeaseOf(GroupedLive(query), texts)}
    {
      hide Registered, TopicRowStorage.Valid, ValidExecution;
      var cacheKey := GroupedCacheKey(query, texts);
      CountOfSlot(activeQueries, leases, History(), QueryTerms(), cacheKey);
      if cacheKey in activeQueries.materialized {
        var existing := activeQueries.materialized[cacheKey];
        SetSlot(cacheKey, existing.(refs := existing.refs + 1), existing.retainedChanges);
      } else {
        var slot := MakeSlot(query);
        OpenSlot(cacheKey, slot);
      }
      assert leases == old(leases) + multiset{GroupedLease(cacheKey)};
    }

    method MakeSlot(query: GroupedLiveQuery) returns (slot: MaterializedQueryExecutionSlot)
      requires storage.Valid() && storage.rowChangeJournal.Settled() && ValidGroupedQuery(query)
      requires TellsNumbersApart(texts)
      ensures SlotServes(slot, GroupedCacheKey(query, texts), History(), QueryTerms()) && slot.refs == 1
    {
      CompiledPlanIsValid(query, texts);
      var execution := MakeIncrementalGroupedQueryExecution(storage, CompileGrouped(query, texts), limits);
      slot := MaterializedQueryExecutionSlot(query, execution, 1, Incremental(execution));
    }

    method OpenSlot(cacheKey: string, slot: MaterializedQueryExecutionSlot)
      requires Valid() && SlotServes(slot, cacheKey, History(), QueryTerms()) && cacheKey !in activeQueries.materialized
      modifies this`activeQueries, this`leases, storage.rowChangeJournal
      ensures Valid() && storage.Stored() == old(storage.Stored()) && History() == old(History())
      ensures leases == old(leases)[GroupedLease(cacheKey) := slot.refs]
    {
      hide Registered, TopicRowStorage.Valid, SlotServes;
      RegisteredWithSlot(activeQueries, leases, History(), QueryTerms(), cacheKey, slot);
      HoldJournal(slot.retainedChanges);
      activeQueries := activeQueries.(materialized := activeQueries.materialized[cacheKey := slot]);
      leases := leases[GroupedLease(cacheKey) := slot.refs];
    }

    /** Sets a slot that goes on serving; a slot that stops holding the journal releases it, once. */
    method SetSlot(cacheKey: string, slot: MaterializedQueryExecutionSlot, retained: bool)
      requires Valid() && cacheKey in activeQueries.materialized && SlotServes(slot, cacheKey, History(), QueryTerms())
      requires retained == activeQueries.materialized[cacheKey].retainedChanges && (slot.retainedChanges ==> retained)
      modifies this`activeQueries, this`leases, storage.rowChangeJournal
      ensures Valid() && storage.Stored() == old(storage.Stored()) && History() == old(History())
      ensures activeQueries == old(activeQueries).(materialized := old(activeQueries).materialized[cacheKey := slot])
      ensures leases == old(leases)[GroupedLease(cacheKey) := slot.refs]
    {
      hide Registered, TopicRowStorage.Valid, SlotServes;
      RegisteredWithSlot(activeQueries, leases, History(), QueryTerms(), cacheKey, slot);
      LetGoOfJournal(retained && !slot.retainedChanges);
      activeQueries := activeQueries.(materialized := activeQueries.materialized[cacheKey := slot]);
      leases := leases[GroupedLease(cacheKey) := slot.refs];
    }

    /** Gives a grouped lease back; with its last lease the slot goes, and its hold on the journal if it still
        has one. */
    method ReleaseGrouped(query: GroupedLiveQuery)
      requires Valid()
      modifies this`activeQueries, this`leases, storage.rowChangeJournal
      ensures Valid() && storage.Stored() == old(storage.Stored()) && History() == old(History())
      ensures leases == old(leases) - multiset{LeaseOf(GroupedLive(query), texts)}
    {
      hide Registered, TopicRowStorage.Valid, ValidExecution;
      var cacheKey := GroupedCacheKey(query, texts);
      CountOfSlot(activeQueries, leases, History(), QueryTerms(), cacheKey);
      if cacheKey in activeQueries.materialized {
        var existing := activeQueries.materialized[cacheKey];
        if existing.refs > 1 {
          SetSlot(cacheKey, existing.(refs := existing.refs - 1), existing.retainedChanges);
        } else {
          DropSlot(cacheKey, existing.retainedChanges);
        }
      }
      assert leases == old(leases) - multiset{GroupedLease(cacheKey)};
    }

    method DropSlot(cacheKey: string, retained: bool)
      requires Valid() && cacheKey in activeQueries.materialized
      requires retained == activeQueries.materialized[cacheKey].retainedChanges
      modifies this`activeQueries, this`leases, storage.rowChangeJournal
      ensures Valid() && storage.Stored() == old(storage.Stored()) && History() == old(History())
      ensures leases == old(leases)[GroupedLease(cacheKey) := 0]
    {
      hide Registered, TopicRowStorage.Valid, SlotServes;
      RegisteredWithoutSlot(activeQueries, leases, History(), QueryTerms(), cacheKey);
      LetGoOfJournal(retained);
      activeQueries := activeQueries.(materialized := activeQueries.materialized - {cacheKey});
      leases := leases[GroupedLease(cacheKey) := 0];
    }

    /** A slot brought up to date. An execution that has to stop being incremental stops holding the journal;
        it goes on exactly if it can follow the journal or be built anew within the limits. */
    method LatestSlot(slot: MaterializedQueryExecutionSlot, query: GroupedLiveQuery, ghost rows: Table)
      returns (latest: MaterializedQueryExecutionSlot, evaluation: QueryEvaluation)
      requires storage.Valid() && storage.rowChangeJournal.Settled() && History()[storage.versionValue] == rows
      requires TellsNumbersApart(texts)
      requires SlotServes(slot, GroupedCacheKey(query, texts), History(), QueryTerms()) && ValidGroupedQuery(query)
      ensures SlotServes(latest, GroupedCacheKey(query, texts), History(), QueryTerms()) && latest.refs == slot.refs
      ensures latest.retainedChanges <==>
        slot.retainedChanges && CanFollow(slot.execution.state.value.version, storage.rowChangeJournal,
                                          slot.execution.q, limits)
      ensures latest.retainedChanges ==> slot.retainedChanges && Admissible(rows, latest.execution.q, limits)
      ensures evaluation.version == storage.versionValue && ShownIs(evaluation, GroupedLive(query), texts, rows)
    {
      hide TopicRowStorage.Valid, ValidExecution, TellsNumbersApart, GroupedCacheKey;
      var execution, released;
      execution, evaluation, released := LatestGrouped(slot.execution, storage);
      SameGroupedKeySameAnswer(slot.query, query, texts, rows);
      latest := slot.(execution := execution, retainedChanges := slot.retainedChanges && !released);
    }

    /** The slot of a leased query, brought up to date, and what the lease sees. */
    method LatestOfLease(query: GroupedLiveQuery, cacheKey: string, ghost rows: Table)
      returns (slot: MaterializedQueryExecutionSlot, evaluation: QueryEvaluation)
      requires Valid() && ValidGroupedQuery(query) && LeaseOf(GroupedLive(query), texts) in leases
      requires cacheKey == GroupedCacheKey(query, texts)
      requires storage.versionValue < |History()| && rows == History()[storage.versionValue]
      ensures cacheKey in activeQueries.materialized && SlotServes(slot, cacheKey, History(), QueryTerms())
      ensures slot.refs == activeQueries.materialized[cacheKey].refs
      ensures slot.retainedChanges ==> activeQueries.materialized[cacheKey].retainedChanges
      ensures evaluation.version == storage.versionValue && ShownIs(evaluation, GroupedLive(query), texts, rows)
    {
      hide Registered, TopicRowStorage.Valid, SlotServes;
      VersionIsLast();
      CountOfSlot(activeQueries, leases, History(), QueryTerms(), cacheKey);
      slot, evaluation := LatestSlot(activeQueries.materialized[cacheKey], query, rows);
    }

    /** What a grouped lease sees. An execution that falls back releases the journal here, once. */
    method EvaluateGrouped(query: GroupedLiveQuery, ghost rows: Table, ghost answer: Answer)
      returns (evaluation: QueryEvaluation)
      requires Valid() && ValidGroupedQuery(query) && LeaseOf(GroupedLive(query), texts) in leases
      requires storage.versionValue < |History()| && rows == History()[storage.versionValue]
      requires AnswersQuery(answer, GroupedLive(query), texts)
      modifies this`activeQueries, storage.rowChangeJournal
      ensures Valid() && storage.Stored() == old(storage.Stored()) && History() == old(History())
      ensures evaluation.version == storage.versionValue && Shows(evaluation, rows, answer)
    {
      hide Registered, TopicRowStorage.Valid, SlotServes, ShownIs, AnswersQuery;
      var cacheKey := GroupedCacheKey(query, texts);
      var slot;
      slot, evaluation := LatestOfLease(query, cacheKey, rows);
      SetExecution(cacheKey, slot);
      ShownIsAnswer(evaluation, GroupedLive(query), texts, rows, answer);
    }

    /** Sets a slot whose execution was brought up to date. */
    method SetExecution(cacheKey: string, slot: MaterializedQueryExecutionSlot)
      requires Valid() && cacheKey in activeQueries.materialized && SlotServes(slot, cacheKey, History(), QueryTerms())
      requires slot.refs == activeQueries.materialized[cacheKey].refs
      requires slot.retainedChanges ==> activeQueries.materialized[cacheKey].retainedChanges
      modifies this`activeQueries, storage.rowChangeJournal
      ensures Valid() && storage.Stored() == old(storage.Stored()) && History() == old(History())
      ensures activeQueries == old(activeQueries).(materialized := old(activeQueries).materialized[cacheKey := slot])
    {
      hide Registered, TopicRowStorage.Valid, SlotServes;
      CountOfSlot(activeQueries, leases, History(), QueryTerms(), cacheKey);
      assert leases[GroupedLease(cacheKey) := slot.refs] == leases;
      RegisteredWithSlot(activeQueries, leases, History(), QueryTerms(), cacheKey, slot);
      LetGoOfJournal(activeQueries.materialized[cacheKey].retainedChanges && !slot.retainedChanges);
      activeQueries := activeQueries.(materialized := activeQueries.materialized[cacheKey := slot]);
    }

    // ----- Leases of either kind -----

    method Acquire(query: LiveQuery)
      requires Valid() && ValidLiveQuery(query, storage.Fields())
      modifies this`activeQueries, this`leases, storage`orderedSlotIndexes, storage`scalarPredicateIndexes
      modifies storage.rowChangeJournal
      ensures Valid() && storage.Stored() == old(storage.Stored()) && History() == old(History())
      ensures leases == old(leases) + multiset{LeaseOf(query, texts)}
    {
      match query
      case RawLive(compiled) => AcquireRaw(compiled);
      case GroupedLive(grouped) => AcquireGrouped(grouped);
    }

    method Release(query: LiveQuery)
      requires Valid()
      modifies this`activeQueries, this`leases, storage`orderedSlotIndexes, storage`scalarPredicateIndexes
      modifies storage.rowChangeJournal
      ensures Valid() && storage.Stored() == old(storage.Stored()) && History() == old(History())
      ensures leases == old(leases) - multiset{LeaseOf(query, texts)}
    {
      match query
      case RawLive(compiled) => ReleaseRaw(compiled);
      case GroupedLive(grouped) => ReleaseGrouped(grouped);
    }

    /** What a lease sees after any run of mutations and of acquires and releases: exactly what its query shows
        of the table as it is now. */
    method Evaluate(query: LiveQuery, ghost answer: Answer) returns (evaluation: QueryEvaluation)
      requires Valid() && ValidLiveQuery(query, storage.Fields()) && LeaseOf(query, texts) in leases
      requires AnswersQuery(answer, query, texts)
      modifies this`activeQueries, storage`orderedSlotIndexes, storage`scalarPredicateIndexes, storage.rowChangeJournal
      ensures Valid() && storage.Stored() == old(storage.Stored()) && History() == old(History())
      ensures evaluation.version == |History()| - 1 && Shows(evaluation, Head(), answer)
    {
      HeadIsStored();
      ghost var rows := storage.Stored();
      match query
      case RawLive(compiled) =>
        evaluation := EvaluateRaw(compiled, rows, answer);
      case GroupedLive(grouped) =>
        evaluation := EvaluateGrouped(grouped, rows, answer);
    }

    // ----- Ends -----

    /** Empties the store and forgets the executions. */
    method Reset()
      requires Valid()
      modifies this`activeQueries, this`leases, storage, storage.rowChangeJournal
      ensures Valid() && storage.Stored() == map[] && History() == [map[]]
      ensures activeQueries == ActiveQueries(map[], map[]) && leases == multiset{} && storage.rowChangeJournal.refs == 0
    {
      storage.Clear();
      ClearQueryExecutions();
    }

    /** Forgets the executions and keeps the rows. */
    method CloseQueries()
      requires Valid()
      modifies this`activeQueries, this`leases, storage.rowChangeJournal
      ensures Valid() && storage.Stored() == old(storage.Stored()) && History() == old(History())
      ensures activeQueries == ActiveQueries(map[], map[]) && leases == multiset{} && storage.rowChangeJournal.refs == 0
    {
      ClearQueryExecutions();
    }

    /** Forgets the executions and releases each one's hold on the journal. */
    method ClearQueryExecutions()
      requires storage.Valid() && storage.rowChangeJournal.Settled() && TellsNumbersApart(texts)
      requires storage.rowChangeJournal.refs == Holders(activeQueries)
      requires storage.rowChangeJournal.refs == 0 ==> storage.rowChangeJournal.Ready()
      modifies this`activeQueries, this`leases, storage.rowChangeJournal
      ensures Valid() && storage.Stored() == old(storage.Stored()) && History() == old(History())
      ensures activeQueries == ActiveQueries(map[], map[]) && leases == multiset{} && storage.rowChangeJournal.refs == 0
    {
      ReleaseRawExecutions(|Retaining(activeQueries.materialized)|);
      ReleaseMaterializedExecutions();
      RegisteredEmpty(History(), QueryTerms());
      activeQueries, leases := ActiveQueries(map[], map[]), multiset{};
    }

    method ReleaseRawExecutions(ghost others: nat)
      requires storage.Valid() && storage.rowChangeJournal.Settled()
      requires storage.rowChangeJournal.refs == |activeQueries.raw| + others
      requires storage.rowChangeJournal.refs == 0 ==> storage.rowChangeJournal.Ready()
      modifies storage.rowChangeJournal
      ensures storage.Valid() && storage.rowChangeJournal.Settled() && History() == old(History())
      ensures storage.rowChangeJournal.refs == others
      ensures storage.rowChangeJournal.refs == 0 ==> storage.rowChangeJournal.Ready()
    {
      var entries := activeQueries.raw.Keys;
      while entries != {}
        invariant storage.Valid() && storage.rowChangeJournal.Settled() && History() == old(History())
        invariant storage.rowChangeJournal.refs == |entries| + others
        invariant storage.rowChangeJournal.refs == 0 ==> storage.rowChangeJournal.Ready()
        decreases |entries|
      {
        var entry :| entry in entries;
        entries := entries - {entry};
        storage.ReleaseChanges();
      }
    }

    method ReleaseMaterializedExecutions()
      requires storage.Valid() && storage.rowChangeJournal.Settled()
      requires storage.rowChangeJournal.refs == |Retaining(activeQueries.materialized)|
      requires storage.rowChangeJournal.refs == 0 ==> storage.rowChangeJournal.Ready()
      modifies storage.rowChangeJournal
      ensures storage.Valid() && storage.rowChangeJournal.Settled() && History() == old(History())
      ensures storage.rowChangeJournal.refs == 0 && storage.rowChangeJournal.Ready()
    {
      var materialized := activeQueries.materialized;
      var entries := materialized.Keys;
      ghost var retaining := Retaining(materialized);
      while entries != {}
        invariant storage.Valid() && storage.rowChangeJournal.Settled() && History() == old(History())
        invariant entries <= materialized.Keys && retaining == Retaining(materialized) * entries
        invariant storage.rowChangeJournal.refs == |retaining|
        invariant storage.rowChangeJournal.refs == 0 ==> storage.rowChangeJournal.Ready()
        decreases |entries|
      {
        var entry :| entry in entries;
        entries := entries - {entry};
        retaining := retaining - {entry};
        if materialized[entry].retainedChanges {
          storage.ReleaseChanges();
        }
      }
    }
  }
}
