/** The registry of active queries: shared executions, the leases on them and their hold on the journal. */
module Registry {
  import opened Sequences
  import opened Sums
  import opened Rows
  import opened QueryValueText
  import opened ActiveRawQuery
  import opened GroupedBatches
  import opened GroupedExecution
  import opened LiveQueries

  /** A grouped execution's slot; it holds the journal as long as the execution is incremental. */
  datatype MaterializedQueryExecutionSlot = MaterializedQueryExecutionSlot(
    query: GroupedLiveQuery,
    execution: GroupedQueryExecution,
    refs: nat,
    retainedChanges: bool
  )

  type RawExecutions = map<string, RawQueryExecution>

  type MaterializedExecutions = map<string, MaterializedQueryExecutionSlot>

  datatype ActiveQueries = ActiveQueries(raw: RawExecutions, materialized: MaterializedExecutions)

  /** What a topic's queries are compiled with. */
  datatype Terms = Terms(fields: set<string>, texts: NumberTexts, limits: GroupedIncrementalAdmissionLimits)

  // ----- Executions that serve -----

  /** The execution serves its cache key: it is leased, and what it remembers was true. */
  ghost predicate Serves(x: RawQueryExecution, key: string, history: seq<Table>, terms: Terms) {
    && Remembers(x, history) && LeasesAddUp(x) && x.refs > 0
    && QueryCacheKey(x.compiled, terms.texts) == key && ValidQuery(x.compiled, terms.fields)
  }

  /** The slot serves its cache key: it is leased, what its execution holds was true, and it holds the journal
      exactly as long as the execution is incremental. */
  ghost predicate SlotServes(slot: MaterializedQueryExecutionSlot, key: string, history: seq<Table>,
                             terms: Terms)
  {
    && ValidExecution(slot.execution, history) && slot.refs > 0
    && (slot.retainedChanges <==> Incremental(slot.execution))
    && ValidGroupedQuery(slot.query) && GroupedCacheKey(slot.query, terms.texts) == key
    && slot.execution.q == CompileGrouped(slot.query, terms.texts) && slot.execution.limits == terms.limits
  }

  ghost predicate ServedAt(raw: RawExecutions, key: string, history: seq<Table>, terms: Terms) {
    key in raw && Serves(raw[key], key, history, terms)
  }

  ghost predicate SlotServedAt(materialized: MaterializedExecutions, key: string, history: seq<Table>,
                               terms: Terms)
  {
    key in materialized && SlotServes(materialized[key], key, history, terms)
  }

  ghost predicate RawServe(raw: RawExecutions, history: seq<Table>, terms: Terms) {
    forall s {:trigger ServedAt(raw, s, history, terms)} | s in raw :: ServedAt(raw, s, history, terms)
  }

  ghost predicate SlotsServe(materialized: MaterializedExecutions, history: seq<Table>, terms: Terms) {
    forall s {:trigger SlotServedAt(materialized, s, history, terms)} | s in materialized ::
      SlotServedAt(materialized, s, history, terms)
  }

  // ----- Leases -----

  /** A lease on a window of the execution under a cache key, or on a grouped execution. */
  datatype Lease = RawLease(rawKey: string, window: Window) | GroupedLease(groupedKey: string)

  function LeaseOf(query: LiveQuery, texts: NumberTexts): Lease {
    match query
    case RawLive(compiled) => RawLease(QueryCacheKey(compiled, texts), compiled.window)
    case GroupedLive(grouped) => GroupedLease(GroupedCacheKey(grouped, texts))
  }

  function RefsOf(active: ActiveQueries, lease: Lease): nat {
    match lease
    case RawLease(key, window) =>
      if key in active.raw && window in active.raw[key].windows then active.raw[key].windows[window] else 0
    case GroupedLease(key) => if key in active.materialized then active.materialized[key].refs else 0
  }

  /** Every window and every slot is counted as often as it is leased. */
  ghost predicate CountsLeases(active: ActiveQueries, leases: multiset<Lease>) {
    forall l {:trigger RefsOf(active, l)} :: RefsOf(active, l) == leases[l]
  }

  // ----- The journal -----

  ghost function Retaining(materialized: MaterializedExecutions): set<string> {
    set k | k in materialized && materialized[k].retainedChanges
  }

  /** How many executions hold the journal. */
  ghost function Holders(active: ActiveQueries): nat {
    |active.raw| + |Retaining(active.materialized)|
  }

  /** The executions serve, and they count their leases. */
  ghost predicate Registered(active: ActiveQueries, leases: multiset<Lease>, history: seq<Table>, terms: Terms) {
    && TellsNumbersApart(terms.texts) && RawServe(active.raw, history, terms)
    && SlotsServe(active.materialized, history, terms) && CountsLeases(active, leases)
  }

  // ----- What changes keep -----

  lemma RegisteredAfterCommit(active: ActiveQueries, leases: multiset<Lease>, history: seq<Table>, rows: Table,
                              terms: Terms)
    requires Registered(active, leases, history, terms)
    ensures Registered(active, leases, history + [rows], terms)
  {
    forall s | s in active.raw
      ensures ServedAt(active.raw, s, history + [rows], terms)
    {
      assert ServedAt(active.raw, s, history, terms);
      HistoryGrows(active.raw[s], history, rows);
    }
    forall s | s in active.materialized
      ensures SlotServedAt(active.materialized, s, history + [rows], terms)
    {
      assert SlotServedAt(active.materialized, s, history, terms);
      ValidAfterCommit(active.materialized[s].execution, history, rows);
    }
  }

  lemma RegisteredEmpty(history: seq<Table>, terms: Terms)
    requires TellsNumbersApart(terms.texts)
    ensures Registered(ActiveQueries(map[], map[]), multiset{}, history, terms)
    ensures Holders(ActiveQueries(map[], map[])) == 0
  {
  }

  lemma RawServeWith(raw: RawExecutions, history: seq<Table>, terms: Terms, key: string, x: RawQueryExecution)
    requires RawServe(raw, history, terms) && Serves(x, key, history, terms)
    ensures RawServe(raw[key := x], history, terms)
  {
    var after := raw[key := x];
    forall s | s in after
      ensures ServedAt(after, s, history, terms)
    {
      assert s != key ==> ServedAt(raw, s, history, terms);
    }
  }

  lemma RawServeWithout(raw: RawExecutions, history: seq<Table>, terms: Terms, key: string)
    requires RawServe(raw, history, terms)
    ensures RawServe(raw - {key}, history, terms)
  {
    var after := raw - {key};
    forall s | s in after
      ensures ServedAt(after, s, history, terms)
    {
      assert ServedAt(raw, s, history, terms);
    }
  }

  lemma SlotsServeWith(materialized: MaterializedExecutions, history: seq<Table>, terms: Terms, key: string,
                       slot: MaterializedQueryExecutionSlot)
    requires SlotsServe(materialized, history, terms) && SlotServes(slot, key, history, terms)
    ensures SlotsServe(materialized[key := slot], history, terms)
  {
    var after := materialized[key := slot];
    forall s | s in after
      ensures SlotServedAt(after, s, history, terms)
    {
      assert s != key ==> SlotServedAt(materialized, s, history, terms);
    }
  }

  lemma SlotsServeWithout(materialized: MaterializedExecutions, history: seq<Table>, terms: Terms, key: string)
    requires SlotsServe(materialized, history, terms)
    ensures SlotsServe(materialized - {key}, history, terms)
  {
    var after := materialized - {key};
    forall s | s in after
      ensures SlotServedAt(after, s, history, terms)
    {
      assert SlotServedAt(materialized, s, history, terms);
    }
  }

  /** Only leases under one key are counted differently. */
  ghost predicate OthersCountAsBefore(active: ActiveQueries, active': ActiveQueries, leases: multiset<Lease>,
                                      leases': multiset<Lease>, of: Lease -> bool)
  {
    forall l {:trigger RefsOf(active', l)} | !of(l) ::
      RefsOf(active', l) == RefsOf(active, l) && leases'[l] == leases[l]
  }

  lemma CountsAfter(active: ActiveQueries, active': ActiveQueries, leases: multiset<Lease>, leases': multiset<Lease>,
                    of: Lease -> bool)
    requires CountsLeases(active, leases) && OthersCountAsBefore(active, active', leases, leases', of)
    requires forall l {:trigger RefsOf(active', l)} | of(l) :: RefsOf(active', l) == leases'[l]
    ensures CountsLeases(active', leases')
  {
    forall l
      ensures RefsOf(active', l) == leases'[l]
    {
      assert RefsOf(active, l) == leases[l];
    }
  }

  function OfRaw(key: string): Lease -> bool {
    (l: Lease) => l.RawLease? && l.rawKey == key
  }

  function OfSlot(key: string): Lease -> bool {
    (l: Lease) => l == GroupedLease(key)
  }

  /** Setting one raw execution changes the counts of its own windows only. */
  lemma RegisteredWithRaw(active: ActiveQueries, leases: multiset<Lease>, history: seq<Table>, terms: Terms,
                          key: string, x: RawQueryExecution, leases': multiset<Lease>)
    requires Registered(active, leases, history, terms) && Serves(x, key, history, terms)
    requires forall w :: leases'[RawLease(key, w)] == if w in x.windows then x.windows[w] else 0
    requires forall l {:trigger OfRaw(key)(l)} | !OfRaw(key)(l) :: leases'[l] == leases[l]
    ensures
      var active' := active.(raw := active.raw[key := x]);
      Registered(active', leases', history, terms) && Holders(active') ==
        Holders(active) + if key in active.raw then 0 else 1
  {
    hide Serves, RawServe, SlotsServe, CountsLeases, TellsNumbersApart;
    var active' := active.(raw := active.raw[key := x]);
    RawServeWith(active.raw, history, terms, key, x);
    CountsAfter(active, active', leases, leases', OfRaw(key));
    LargerMap(active.raw, key, x);
  }

  lemma RegisteredWithoutRaw(active: ActiveQueries, leases: multiset<Lease>, history: seq<Table>, terms: Terms,
                             key: string, leases': multiset<Lease>)
    requires Registered(active, leases, history, terms) && key in active.raw
    requires forall w :: leases'[RawLease(key, w)] == 0
    requires forall l {:trigger OfRaw(key)(l)} | !OfRaw(key)(l) :: leases'[l] == leases[l]
    ensures
      var active' := active.(raw := active.raw - {key});
      Registered(active', leases', history, terms) && Holders(active') == Holders(active) - 1
  {
    hide RawServe, SlotsServe, CountsLeases, TellsNumbersApart;
    var active' := active.(raw := active.raw - {key});
    RawServeWithout(active.raw, history, terms, key);
    CountsAfter(active, active', leases, leases', OfRaw(key));
    SmallerMap(active.raw, key);
  }

  function RetainedBy(materialized: MaterializedExecutions, key: string): nat {
    if key in materialized && materialized[key].retainedChanges then 1 else 0
  }

  lemma RetainingWith(materialized: MaterializedExecutions, key: string, slot: MaterializedQueryExecutionSlot)
    ensures |Retaining(materialized[key := slot])| ==
            |Retaining(materialized)| - RetainedBy(materialized, key) + if slot.retainedChanges then 1 else 0
  {
    var rest := Retaining(materialized) - {key};
    assert Retaining(materialized) == if key in Retaining(materialized) then rest + {key} else rest;
    assert Retaining(materialized[key := slot]) == if slot.retainedChanges then rest + {key} else rest;
  }

  lemma RetainingWithout(materialized: MaterializedExecutions, key: string)
    ensures |Retaining(materialized - {key})| == |Retaining(materialized)| - RetainedBy(materialized, key)
  {
    assert Retaining(materialized - {key}) == Retaining(materialized) - {key};
  }

  lemma RegisteredWithSlot(active: ActiveQueries, leases: multiset<Lease>, history: seq<Table>, terms: Terms,
                           key: string, slot: MaterializedQueryExecutionSlot)
    requires Registered(active, leases, history, terms) && SlotServes(slot, key, history, terms)
    ensures
      var active' := active.(materialized := active.materialized[key := slot]);
      && Registered(active', leases[GroupedLease(key) := slot.refs], history, terms)
      && Holders(active') ==
        Holders(active) - RetainedBy(active.materialized, key) + if slot.retainedChanges then 1 else 0
  {
    hide SlotServes, RawServe, SlotsServe, CountsLeases, TellsNumbersApart;
    var active' := active.(materialized := active.materialized[key := slot]);
    SlotsServeWith(active.materialized, history, terms, key, slot);
    CountsAfter(active, active', leases, leases[GroupedLease(key) := slot.refs], OfSlot(key));
    RetainingWith(active.materialized, key, slot);
  }

  lemma RegisteredWithoutSlot(active: ActiveQueries, leases: multiset<Lease>, history: seq<Table>, terms: Terms,
                              key: string)
    requires Registered(active, leases, history, terms)
    ensures
      var active' := active.(materialized := active.materialized - {key});
      && Registered(active', leases[GroupedLease(key) := 0], history, terms)
      && Holders(active') == Holders(active) - RetainedBy(active.materialized, key)
  {
    hide SlotServes, RawServe, SlotsServe, CountsLeases, TellsNumbersApart;
    var active' := active.(materialized := active.materialized - {key});
    SlotsServeWithout(active.materialized, history, terms, key);
    CountsAfter(active, active', leases, leases[GroupedLease(key) := 0], OfSlot(key));
    RetainingWithout(active.materialized, key);
  }

  /** A registered raw execution serves; how often its windows are leased. */
  lemma CountsOf(active: ActiveQueries, leases: multiset<Lease>, history: seq<Table>, terms: Terms, key: string)
    requires Registered(active, leases, history, terms)
    ensures TellsNumbersApart(terms.texts)
    ensures key in active.raw ==> Serves(active.raw[key], key, history, terms)
    ensures forall w :: leases[RawLease(key, w)] ==
              if key in active.raw && w in active.raw[key].windows then active.raw[key].windows[w] else 0
  {
    assert key in active.raw ==> ServedAt(active.raw, key, history, terms);
    forall w
      ensures leases[RawLease(key, w)] ==
              if key in active.raw && w in active.raw[key].windows then active.raw[key].windows[w] else 0
    {
      assert RefsOf(active, RawLease(key, w)) == leases[RawLease(key, w)];
    }
  }

  /** A registered slot serves; how often it is leased. */
  lemma CountOfSlot(active: ActiveQueries, leases: multiset<Lease>, history: seq<Table>, terms: Terms,
                    key: string)
    requires Registered(active, leases, history, terms)
    ensures TellsNumbersApart(terms.texts)
    ensures key in active.materialized ==> SlotServes(active.materialized[key], key, history, terms)
    ensures leases[GroupedLease(key)] == if key in active.materialized then active.materialized[key].refs else 0
  {
    assert key in active.materialized ==> SlotServedAt(active.materialized, key, history, terms);
    assert RefsOf(active, GroupedLease(key)) == leases[GroupedLease(key)];
  }

  lemma NoRefsNoWindows(windows: map<Window, nat>)
    requires SumOf(windows) == 0 && forall w | w in windows :: windows[w] > 0
    ensures windows == map[]
  {
    EveryWindowCounts(windows);
  }

  lemma {:induction false} EveryWindowCounts(windows: map<Window, nat>)
    requires forall w | w in windows :: windows[w] > 0
    ensures SumOf(windows) >= |windows|
  {
    if windows != map[] {
      var w :| w in windows && SumOf(windows) == windows[w] + SumOf(windows - {w});
      EveryWindowCounts(windows - {w});
    }
  }
}
