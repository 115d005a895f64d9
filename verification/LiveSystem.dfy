/** A store, its subscriptions and the clients that follow them, in any interleaving of their steps. */
module LiveSystem {
  import opened Values
  import opened Sequences
  import opened Rows
  import opened LiveProtocol
  import opened LiveAnswers
  import opened LiveEvents
  import opened RemoteClient
  import opened RowStorage
  import opened LiveQueries
  import opened Registry
  import opened TopicStore
  import opened LiveSubscription
  import R = RemoteSubscription

  /** A subscription and the client's end of it. */
  datatype Connection = Connection(subscription: Subscription, remote: R.RemoteSubscription)

  ghost function Parts(c: Connection): set<object> {
    {c.subscription, c.subscription.events, c.remote, c.remote.source, c.remote.queue}
  }

  /** What the engine changes of connections: their subscriptions and the queues these fill. */
  ghost function SubscriptionsOf(connections: seq<Connection>): set<object> {
    set c | c in connections :: c.subscription
  }

  ghost function QueuesOf(connections: seq<Connection>): set<object> {
    set c | c in connections :: c.subscription.events
  }

  ghost function RemoteParts(c: Connection): set<object> {
    {c.remote, c.remote.queue}
  }

  ghost predicate Linked(c: Connection, store: Store) {
    && c.subscription.store == store
    && c.remote.source == c.subscription.events
    && RemoteParts(c) !! {c.subscription, c.subscription.events}
  }

  /** The subscription's query is one its store can evaluate. */
  ghost predicate Answered(c: Connection) {
    c.subscription.Answerable()
  }

  /** The connection has told the truth and relays it. */
  ghost predicate Honest(c: Connection)
    reads Parts(c)
  {
    c.subscription.Told() && c.remote.Valid()
  }

  /** Besides, the connection stands on the store's history while it is open. */
  ghost predicate InOrder(c: Connection, history: seq<Table>)
    reads Parts(c)
  {
    Honest(c) && (!c.subscription.closed ==> c.subscription.OnHistory(history))
  }

  ghost predicate Apart(c: Connection, d: Connection) {
    Parts(c) !! Parts(d)
  }

  /** The lease of an open subscription. */
  ghost function LeaseHeld(c: Connection): Option<Lease>
    reads c.subscription`closed
  {
    if c.subscription.closed then None else Some(LeaseOf(c.subscription.query, c.subscription.store.texts))
  }

  ghost function Leases(held: seq<Option<Lease>>): multiset<Lease> {
    if held == [] then multiset{} else Leases(held[..|held| - 1]) + One(held[|held| - 1])
  }

  ghost function One(lease: Option<Lease>): multiset<Lease> {
    if lease.Some? then multiset{lease.value} else multiset{}
  }

  lemma LeasesAppend(held: seq<Option<Lease>>, lease: Option<Lease>)
    ensures Leases(held + [lease]) == Leases(held) + One(lease)
  {
    assert (held + [lease])[..|held|] == held;
  }

  /** Giving up one lease takes exactly that lease away. */
  lemma {:induction false} LeasesWithout(held: seq<Option<Lease>>, i: nat)
    requires i < |held| && held[i].Some?
    ensures held[i].value in Leases(held) && Leases(held[i := None]) == Leases(held) - multiset{held[i].value}
    decreases |held|
  {
    var n := |held| - 1;
    var front, after := held[..n], held[i := None];
    if i < n {
      LeasesWithout(front, i);
      assert after[..n] == front[i := None] && after[n] == held[n];
      MinusFirst(Leases(front), One(held[n]), held[i].value);
    } else {
      assert after[..n] == front;
      assert Leases(after) == Leases(front) + One(None);
    }
  }

  lemma MinusFirst(a: multiset<Lease>, b: multiset<Lease>, x: Lease)
    requires x in a
    ensures x in a + b && (a - multiset{x}) + b == (a + b) - multiset{x}
  {
  }

  lemma {:induction false} NoLeases(held: seq<Option<Lease>>)
    requires forall i | 0 <= i < |held| :: held[i].None?
    ensures Leases(held) == multiset{}
  {
    if held != [] {
      NoLeases(held[..|held| - 1]);
    }
  }

  /** The subscription is closed, or its cursor shows the table. */
  ghost predicate Current(c: Connection, rows: Table)
    reads Parts(c)
  {
    c.subscription.closed || Shows(c.subscription.cursor, rows, c.subscription.answer)
  }

  // ----- All connections -----

  ghost function StoreParts(store: Store): set<object> {
    {store, store.storage, store.storage.rowChangeJournal}
  }

  ghost predicate Within(connections: seq<Connection>, parts: set<object>) {
    forall i {:trigger connections[i]} | 0 <= i < |connections| :: Parts(connections[i]) <= parts
  }

  /** The connections are linked to the store and share no part. */
  ghost predicate AllLinked(connections: seq<Connection>, parts: set<object>, store: Store) {
    && StoreParts(store) !! parts && Within(connections, parts)
    && (forall i {:trigger Linked(connections[i], store)} | 0 <= i < |connections| :: Linked(connections[i], store))
    && (forall i {:trigger Answered(connections[i])} | 0 <= i < |connections| :: Answered(connections[i]))
    && (forall i,
        j {:trigger Apart(connections[i], connections[j])} | 0 <= i < |connections| && 0 <= j < |connections|
          && i != j ::
          Apart(connections[i], connections[j]))
  }

  ghost predicate AllInOrder(connections: seq<Connection>, parts: set<object>, history: seq<Table>)
    requires Within(connections, parts)
    reads parts
  {
    forall i {:trigger InOrder(connections[i], history)} | 0 <= i < |connections| :: InOrder(connections[i], history)
  }

  /** What each connection holds: the lease of its subscription while that is open. */
  ghost predicate Holds(connections: seq<Connection>, parts: set<object>, held: seq<Option<Lease>>)
    requires Within(connections, parts)
    reads parts
  {
    && |held| == |connections|
    && forall i {:trigger LeaseHeld(connections[i])} | 0 <= i < |connections| ::
         assert connections[i].subscription in Parts(connections[i]);
         held[i] == LeaseHeld(connections[i])
  }

  ghost function HeldBy(connections: seq<Connection>, parts: set<object>): (held: seq<Option<Lease>>)
    requires Within(connections, parts)
    reads parts
    ensures Holds(connections, parts, held)
    decreases |connections|
  {
    if connections == [] then []
    else
      var n := |connections| - 1;
      assert connections[n].subscription in Parts(connections[n]);
      HeldBy(connections[..n], parts) + [LeaseHeld(connections[n])]
  }

  /** Connections with a longer history behind them stand where they stood. */
  lemma AllInOrderLater(connections: seq<Connection>, parts: set<object>, history: seq<Table>, longer: seq<Table>)
    requires Within(connections, parts) && AllInOrder(connections, parts, history) && history <= longer
    ensures AllInOrder(connections, parts, longer)
  {
    forall i | 0 <= i < |connections|
      ensures InOrder(connections[i], longer)
    {
      assert InOrder(connections[i], history);
    }
  }

  // ----- All connections but one -----

  /** Connections that a step of another one does not touch. */
  ghost predicate Bystanders(others: seq<Connection>, parts: set<object>, held: seq<Option<Lease>>, history: seq<Table>)
    reads parts
  {
    Within(others, parts) && AllInOrder(others, parts, history) && Holds(others, parts, held)
  }

  lemma PartsWithout(connections: seq<Connection>, parts: set<object>, store: Store, i: nat)
    requires i < |connections| && AllLinked(connections, parts, store)
    ensures Within(RemoveAt(connections, i), parts - Parts(connections[i]))
  {
    var others := RemoveAt(connections, i);
    forall k | 0 <= k < |others|
      ensures Parts(others[k]) <= parts - Parts(connections[i])
    {
      var j := if k < i then k else k + 1;
      assert others[k] == connections[j] && Apart(connections[i], connections[j]);
    }
  }

  ghost predicate HeldAt(connections: seq<Connection>, parts: set<object>, i: nat, lease: Option<Lease>)
    requires Within(connections, parts)
    reads parts
  {
    var held := HeldBy(connections, parts);
    i < |held| && held[i] == lease && held[i := lease] == held
  }

  lemma HeldThere(connections: seq<Connection>, parts: set<object>, i: nat)
    requires i < |connections| && Within(connections, parts)
    ensures HeldAt(connections, parts, i, LeaseHeld(connections[i]))
  {
    var held := HeldBy(connections, parts);
    assert held[i] == LeaseHeld(connections[i]);
    assert held[i := held[i]] == held;
  }

  lemma Divide(connections: seq<Connection>, parts: set<object>, store: Store, i: nat, history: seq<Table>)
    requires i < |connections| && AllLinked(connections, parts, store) && AllInOrder(connections, parts, history)
    ensures Linked(connections[i], store) && InOrder(connections[i], history) && Parts(connections[i]) <= parts
    ensures HeldAt(connections, parts, i, LeaseHeld(connections[i]))
    ensures Bystanders(RemoveAt(connections, i), parts - Parts(connections[i]), RemoveAt(HeldBy(connections, parts), i),
                       history)
  {
    PartsWithout(connections, parts, store, i);
    assert Linked(connections[i], store) && InOrder(connections[i], history);
    HeldThere(connections, parts, i);
    OthersInOrder(connections, parts, i, HeldBy(connections, parts), history);
  }

  lemma OthersInOrder(connections: seq<Connection>, parts: set<object>, i: nat, held: seq<Option<Lease>>,
                      history: seq<Table>)
    requires i < |connections| && Within(connections, parts) && AllInOrder(connections, parts, history)
    requires Within(RemoveAt(connections, i), parts - Parts(connections[i])) && Holds(connections, parts, held)
    ensures Bystanders(RemoveAt(connections, i), parts - Parts(connections[i]), RemoveAt(held, i), history)
  {
    var others := RemoveAt(connections, i);
    forall k | 0 <= k < |others|
      ensures InOrder(others[k], history) && RemoveAt(held, i)[k] == LeaseHeld(others[k])
    {
      var j := if k < i then k else k + 1;
      assert others[k] == connections[j] && InOrder(connections[j], history);
    }
  }

  lemma Rejoin(connections: seq<Connection>, parts: set<object>, i: nat, held: seq<Option<Lease>>, history: seq<Table>)
    requires i < |connections| == |held| && InOrder(connections[i], history) && Within(connections, parts)
    requires Bystanders(RemoveAt(connections, i), parts - Parts(connections[i]), RemoveAt(held, i), history)
    ensures AllInOrder(connections, parts, history)
    ensures HeldBy(connections, parts) == held[i := LeaseHeld(connections[i])]
  {
    var others := RemoveAt(connections, i);
    forall j | 0 <= j < |connections|
      ensures InOrder(connections[j], history)
      ensures j != i ==> held[j] == LeaseHeld(connections[j])
    {
      if j != i {
        var k := if j < i then j else j - 1;
        assert others[k] == connections[j] && InOrder(others[k], history);
        assert RemoveAt(held, i)[k] == held[j];
      }
    }
    HeldIsUnique(connections, parts, held[i := LeaseHeld(connections[i])]);
  }

  lemma HeldIsUnique(connections: seq<Connection>, parts: set<object>, held: seq<Option<Lease>>)
    requires Within(connections, parts) && Holds(connections, parts, held)
    ensures HeldBy(connections, parts) == held
  {
    forall i | 0 <= i < |connections|
      ensures HeldBy(connections, parts)[i] == held[i]
    {
      assert held[i] == LeaseHeld(connections[i]);
    }
  }

  lemma RemoteRelays(remote: R.RemoteSubscription)
    requires remote.Valid()
    ensures Relays(remote, remote.source.consumed)
  {
  }

  /** What waits at the second queue and what it relayed do not depend on more being produced at the first. */
  lemma RemoteGoesOn(c: Connection, consumed: seq<LiveEvent>)
    requires c.remote.source == c.subscription.events && c.remote.queue !in {c.subscription, c.subscription.events}
    requires c.subscription.Told() && c.subscription.events.consumed == consumed
    requires Relays(c.remote, consumed)
    ensures c.remote.Valid()
  {
  }

  /** The second queue stands where it has relayed everything taken from the first. */
  ghost predicate Relays(remote: R.RemoteSubscription, consumed: seq<LiveEvent>)
    reads remote, remote.queue
  {
    && remote.queue.Valid() && R.Accepted(remote.queue.produced, remote.queue.terminal, remote.relayed)
    && remote.closes == (if remote.lifecycleClosed then 1 else 0)
    && (remote.running ==> !remote.queue.ended && remote.queue.terminal.None? && remote.failure.None?)
    && (remote.queue.terminal.Some? ==> remote.lifecycleClosed)
    && (remote.failure.Some? ==>
      R.EndsReadiness(remote.failure.value) && remote.relayed == consumed + [remote.failure.value])
    && (remote.failure.None? ==> remote.relayed == consumed)
  }

  /** The lease of an open subscription is held; a step keeps it, or gives back that one only. */
  lemma StepKeepsLeases(held: seq<Option<Lease>>, i: nat, leases: multiset<Lease>)
    requires i < |held| && held[i].Some? && Leases(held) <= leases
    ensures held[i].value in leases
    ensures Leases(held[i := None]) <= leases - multiset{held[i].value}
  {
    LeasesWithout(held, i);
  }

  lemma AllAreBystanders(connections: seq<Connection>, parts: set<object>, history: seq<Table>)
    requires Within(connections, parts) && AllInOrder(connections, parts, history)
    ensures Bystanders(connections, parts, HeldBy(connections, parts), history)
  {
  }

  lemma AllAreInOrder(connections: seq<Connection>, parts: set<object>, held: seq<Option<Lease>>, history: seq<Table>)
    requires Bystanders(connections, parts, held, history)
    ensures AllInOrder(connections, parts, history) && HeldBy(connections, parts) == held
  {
    HeldIsUnique(connections, parts, held);
  }

  lemma BystandersLater(others: seq<Connection>, parts: set<object>, held: seq<Option<Lease>>, history: seq<Table>,
                        longer: seq<Table>)
    requires Bystanders(others, parts, held, history) && history <= longer
    ensures AllInOrder(others, parts, longer) && HeldBy(others, parts) == held
  {
    AllInOrderLater(others, parts, history, longer);
    HeldIsUnique(others, parts, held);
  }

  lemma Joined(connections: seq<Connection>, parts: set<object>, store: Store, c: Connection, held: seq<Option<Lease>>,
               history: seq<Table>)
    requires AllLinked(connections, parts, store) && Bystanders(connections, parts, held, history)
    requires Linked(c, store) && Answered(c) && InOrder(c, history)
    requires Parts(c) !! parts && Parts(c) !! StoreParts(store)
    ensures AllLinked(connections + [c], parts + Parts(c), store)
    ensures AllInOrder(connections + [c], parts + Parts(c), history)
    ensures HeldBy(connections + [c], parts + Parts(c)) == held + [LeaseHeld(c)]
  {
    var after := connections + [c];
    forall i | 0 <= i < |after|
      ensures Parts(after[i]) <= parts + Parts(c) && Linked(after[i], store) && Answered(after[i])
      ensures InOrder(after[i], history) && (held + [LeaseHeld(c)])[i] == LeaseHeld(after[i])
    {
      if i < |connections| {
        assert after[i] == connections[i];
        assert Linked(connections[i], store) && Answered(connections[i]) && InOrder(connections[i], history);
      }
    }
    forall i, j | 0 <= i < |after| && 0 <= j < |after| && i != j
      ensures Apart(after[i], after[j])
    {
      if i < |connections| && j < |connections| {
        assert Apart(connections[i], connections[j]);
      } else {
        var other := connections[if i < j then i else j];
        assert Parts(other) <= parts;
      }
    }
    HeldIsUnique(after, parts + Parts(c), held + [LeaseHeld(c)]);
  }

  /** The connections have all been told of the table, or are closed. */
  ghost predicate AllCurrent(connections: seq<Connection>, parts: set<object>, rows: Table)
    requires Within(connections, parts)
    reads parts
  {
    forall i {:trigger Current(connections[i], rows)} | 0 <= i < |connections| :: Current(connections[i], rows)
  }

  /** Where a subscription stands and what waits to be read from it. */
  datatype Standing = Standing(closed: bool, cursor: QueryEvaluation, waiting: seq<LiveEvent>)

  ghost function StandingOf(c: Connection): Standing
    reads Parts(c)
  {
    Standing(c.subscription.closed, c.subscription.cursor, c.subscription.events.queue)
  }

  ghost function Standings(connections: seq<Connection>, parts: set<object>): (standings: seq<Standing>)
    requires Within(connections, parts)
    reads parts
    ensures AllStand(connections, parts, standings)
    decreases |connections|
  {
    if connections == [] then []
    else
      var n := |connections| - 1;
      assert Parts(connections[n]) <= parts;
      Standings(connections[..n], parts) + [StandingOf(connections[n])]
  }

  ghost predicate AllStand(connections: seq<Connection>, parts: set<object>, standings: seq<Standing>)
    requires Within(connections, parts)
    reads parts
  {
    && |standings| == |connections|
    && forall i {:trigger StandingOf(connections[i])} | 0 <= i < |connections| ::
         StandingOf(connections[i]) == standings[i]
  }

  /** A closed subscription is left as it was; an open one has been notified. */
  ghost predicate NotifiedFrom(c: Connection, stood: Standing, rows: Table)
    reads Parts(c)
  {
    && Current(c, rows)
    && if stood.closed then StandingOf(c) == stood else c.subscription.Notified(stood.cursor, stood.waiting, rows)
  }

  /** All subscriptions that were open have been notified. */
  ghost predicate AllNotified(connections: seq<Connection>, parts: set<object>, standings: seq<Standing>, rows: Table)
    requires Within(connections, parts) && |standings| == |connections|
    reads parts
  {
    forall i {:trigger NotifiedFrom(connections[i], standings[i], rows)} | 0 <= i < |connections| ::
      NotifiedFrom(connections[i], standings[i], rows)
  }

  /** The subscriptions are closed. Those that were open are ended with a status that waits to be read; the others
      are left as they were. */
  ghost predicate AllEnded(connections: seq<Connection>, parts: set<object>, standings: seq<Standing>,
                           status: LiveEvent)
    requires Within(connections, parts) && |standings| >= |connections|
    reads parts
  {
    forall i {:trigger EndedWith(connections[i], standings[i], status)} | 0 <= i < |connections| ::
      EndedWith(connections[i], standings[i], status)
  }

  ghost predicate EndedWith(c: Connection, stood: Standing, status: LiveEvent)
    reads Parts(c)
  {
    && c.subscription.closed
    && if stood.closed then StandingOf(c) == stood else c.subscription.events.queue == [status]
  }

  lemma FirstOnesAreOthers(connections: seq<Connection>, parts: set<object>, store: Store, i: nat)
    requires i < |connections| && AllLinked(connections, parts, store)
    ensures Within(connections[..i], parts - Parts(connections[i])) && Within(connections[..i + 1], parts)
  {
    var before := connections[..i];
    forall k | 0 <= k < i
      ensures Parts(before[k]) <= parts - Parts(connections[i])
    {
      assert before[k] == connections[k] && Apart(connections[k], connections[i]);
    }
  }

  lemma NoneHasEnded(connections: seq<Connection>, parts: set<object>, held: seq<Option<Lease>>, status: LiveEvent)
    requires Within(connections, parts)
    ensures Within(connections[..0], parts)
    ensures AllEnded(connections[..0], parts, Standings(connections, parts), status) && NoneUpTo(held, 0) == held
    ensures Within(connections[0..], parts) && AllStand(connections[0..], parts, Standings(connections, parts)[0..])
  {
    assert connections[0..] == connections && Standings(connections, parts)[0..] == Standings(connections, parts);
  }

  lemma FirstOnesEnded(connections: seq<Connection>, parts: set<object>, some: set<object>, standings: seq<Standing>,
                       status: LiveEvent)
    requires Within(connections, parts) && Within(connections, some) && |standings| >= |connections|
    ensures AllEnded(connections, parts, standings, status) <==> AllEnded(connections, some, standings, status)
  {
  }

  /** What is still held when the first `n` connections hold nothing any more. */
  function NoneUpTo(held: seq<Option<Lease>>, n: nat): (left: seq<Option<Lease>>)
    ensures |left| == |held| && forall i | 0 <= i < |held| :: left[i] == if i < n then None else held[i]
  {
    seq(|held|, i requires 0 <= i < |held| => if i < n then None else held[i])
  }

  lemma NoneUpToNext(held: seq<Option<Lease>>, n: nat)
    requires n < |held|
    ensures NoneUpTo(held, n)[n] == held[n] && NoneUpTo(held, n)[n := None] == NoneUpTo(held, n + 1)
  {
  }

  /** Closed connections stand on any history. */
  lemma AllClosedAreInOrder(connections: seq<Connection>, parts: set<object>, held: seq<Option<Lease>>,
                            history: seq<Table>, other: seq<Table>)
    requires Within(connections, parts) && AllInOrder(connections, parts, history) && |held| == |connections|
    requires HeldBy(connections, parts) == NoneUpTo(held, |connections|)
    ensures AllInOrder(connections, parts, other) && Leases(HeldBy(connections, parts)) == multiset{}
  {
    forall i | 0 <= i < |connections|
      ensures InOrder(connections[i], other)
    {
      assert InOrder(connections[i], history);
      assert HeldBy(connections, parts)[i] == LeaseHeld(connections[i]);
    }
    NoLeases(HeldBy(connections, parts));
  }

  lemma ClosedIsCurrent(c: Connection, rows: Table)
    requires c.subscription.closed
    ensures Current(c, rows)
  {
  }

  lemma NoneIsNotified(connections: seq<Connection>, parts: set<object>, rows: Table)
    requires Within(connections, parts)
    ensures Within(connections[..0], parts)
    ensures AllNotified(connections[..0], parts, Standings(connections, parts)[..0], rows)
    ensures Within(connections[0..], parts) && AllStand(connections[0..], parts, Standings(connections, parts)[0..])
  {
    assert connections[0..] == connections && Standings(connections, parts)[0..] == Standings(connections, parts);
  }

  lemma FirstOnesNotified(connections: seq<Connection>, parts: set<object>, some: set<object>,
                          standings: seq<Standing>, rows: Table)
    requires Within(connections, parts) && Within(connections, some) && |standings| == |connections|
    ensures AllNotified(connections, parts, standings, rows) <==> AllNotified(connections, some, standings, rows)
  {
  }

  lemma LastOnesStand(connections: seq<Connection>, parts: set<object>, some: set<object>, standings: seq<Standing>)
    requires Within(connections, parts) && Within(connections, some)
    ensures AllStand(connections, parts, standings) <==> AllStand(connections, some, standings)
  {
  }

  lemma LastOnesAreOthers(connections: seq<Connection>, parts: set<object>, store: Store, i: nat)
    requires i < |connections| && AllLinked(connections, parts, store)
    ensures Within(connections[i + 1..], parts - Parts(connections[i])) && Within(connections[i + 1..], parts)
  {
    var after := connections[i + 1..];
    forall k | 0 <= k < |after|
      ensures Parts(after[k]) <= parts - Parts(connections[i])
    {
      assert after[k] == connections[i + 1 + k] && Apart(connections[i + 1 + k], connections[i]);
    }
  }

  lemma NextStands(connections: seq<Connection>, parts: set<object>, i: nat, standings: seq<Standing>)
    requires i < |connections| == |standings| && Within(connections[i..], parts) && Within(connections[i + 1..], parts)
    requires AllStand(connections[i..], parts, standings[i..])
    ensures Parts(connections[i]) <= parts && StandingOf(connections[i]) == standings[i]
    ensures AllStand(connections[i + 1..], parts, standings[i + 1..])
  {
    var rest, after := connections[i..], connections[i + 1..];
    assert rest[0] == connections[i] && Parts(rest[0]) <= parts && StandingOf(rest[0]) == standings[i..][0];
    forall k | 0 <= k < |after|
      ensures StandingOf(after[k]) == standings[i + 1..][k]
    {
      assert after[k] == rest[k + 1] && StandingOf(rest[k + 1]) == standings[i..][k + 1];
    }
  }

  lemma OneMoreIsNotified(connections: seq<Connection>, parts: set<object>, i: nat, standings: seq<Standing>,
                          rows: Table)
    requires i < |connections| == |standings| && Within(connections[..i], parts) && Within(connections[..i + 1], parts)
    requires AllNotified(connections[..i], parts, standings[..i], rows)
    requires NotifiedFrom(connections[i], standings[i], rows)
    ensures AllNotified(connections[..i + 1], parts, standings[..i + 1], rows)
  {
    hide NotifiedFrom;
    var before, after := connections[..i], connections[..i + 1];
    forall k | 0 <= k <= i
      ensures NotifiedFrom(after[k], standings[..i + 1][k], rows)
    {
      assert k < i ==> after[k] == before[k] && NotifiedFrom(before[k], standings[..i][k], rows);
    }
  }

  lemma NotifiedAreCurrent(connections: seq<Connection>, parts: set<object>, standings: seq<Standing>, rows: Table)
    requires Within(connections, parts) && |standings| == |connections|
    requires AllNotified(connections, parts, standings, rows)
    ensures AllCurrent(connections, parts, rows)
  {
    forall i | 0 <= i < |connections|
      ensures Current(connections[i], rows)
    {
      assert NotifiedFrom(connections[i], standings[i], rows);
    }
  }

  lemma OneMoreHasEnded(connections: seq<Connection>, parts: set<object>, i: nat, standings: seq<Standing>,
                        status: LiveEvent)
    requires i < |connections| <= |standings|
    requires Within(connections[..i], parts) && Within(connections[..i + 1], parts)
    requires AllEnded(connections[..i], parts, standings, status)
    requires EndedWith(connections[i], standings[i], status)
    ensures AllEnded(connections[..i + 1], parts, standings, status)
  {
    hide EndedWith;
    var before, after := connections[..i], connections[..i + 1];
    forall k | 0 <= k <= i
      ensures EndedWith(after[k], standings[k], status)
    {
      assert k < i ==> after[k] == before[k] && EndedWith(before[k], standings[k], status);
    }
  }

  // ----- Steps of one connection -----

  /** The leases that are left when an open subscription has taken a step. */
  ghost function LeasesAfter(leases: multiset<Lease>, c: Connection): multiset<Lease>
    reads c.subscription`closed
  {
    var lease := LeaseOf(c.subscription.query, c.subscription.store.texts);
    if c.subscription.closed then leases - multiset{lease} else leases
  }

  /** The subscriber is told what has changed since it was last told. */
  method NotifyConnection(c: Connection, store: Store)
    requires store.Valid() && Linked(c, store) && Answered(c) && Parts(c) !! StoreParts(store)
    requires InOrder(c, store.History()) && !c.subscription.closed
    requires LeaseOf(c.subscription.query, c.subscription.store.texts) in store.leases
    modifies c.subscription, c.subscription.events
    modifies store`activeQueries, store`leases, store.storage`orderedSlotIndexes
    modifies store.storage`scalarPredicateIndexes, store.storage.rowChangeJournal
    ensures store.Valid() && store.History() == old(store.History()) && InOrder(c, store.History())
    ensures c.subscription.Notified(old(c.subscription.cursor), old(c.subscription.events.queue), store.Head())
    ensures Current(c, store.Head()) && store.leases == LeasesAfter(old(store.leases), c)
  {
    hide Store.Valid, BackpressureStatus;
    ghost var consumed := c.subscription.events.consumed;
    RemoteRelays(c.remote);
    c.subscription.Notify();
    RemoteGoesOn(c, consumed);
  }

  /** A step of one connection leaves the others where they are. */
  method NotifyOne(c: Connection, store: Store, ghost others: seq<Connection>, ghost parts: set<object>,
                   ghost held: seq<Option<Lease>>)
    requires store.Valid() && Linked(c, store) && Answered(c) && Parts(c) !! StoreParts(store)
    requires InOrder(c, store.History()) && !c.subscription.closed
    requires LeaseOf(c.subscription.query, c.subscription.store.texts) in store.leases
    requires Bystanders(others, parts, held, store.History()) && parts !! Parts(c) && parts !! StoreParts(store)
    modifies c.subscription, c.subscription.events
    modifies store`activeQueries, store`leases, store.storage`orderedSlotIndexes
    modifies store.storage`scalarPredicateIndexes, store.storage.rowChangeJournal
    ensures store.Valid() && store.History() == old(store.History()) && InOrder(c, store.History())
    ensures Bystanders(others, parts, held, store.History())
    ensures c.subscription.Notified(old(c.subscription.cursor), old(c.subscription.events.queue), store.Head())
    ensures Current(c, store.Head()) && store.leases == LeasesAfter(old(store.leases), c)
  {
    hide Store.Valid, Bystanders;
    NotifyConnection(c, store);
  }

  /** The subscriber leaves. */
  method CloseConnection(c: Connection, store: Store)
    requires store.Valid() && Linked(c, store) && Parts(c) !! StoreParts(store) && Honest(c) && !c.subscription.closed
    modifies c.subscription`closed, c.subscription.events
    modifies store`activeQueries, store`leases, store.storage`orderedSlotIndexes
    modifies store.storage`scalarPredicateIndexes, store.storage.rowChangeJournal
    ensures store.Valid() && store.History() == old(store.History()) && Honest(c) && c.subscription.closed
    ensures store.leases == LeasesAfter(old(store.leases), c)
  {
    hide Store.Valid;
    ghost var consumed := c.subscription.events.consumed;
    RemoteRelays(c.remote);
    c.subscription.Close();
    RemoteGoesOn(c, consumed);
  }

  method CloseOne(c: Connection, store: Store, ghost others: seq<Connection>, ghost parts: set<object>,
                  ghost held: seq<Option<Lease>>, ghost history: seq<Table>)
    requires store.Valid() && Linked(c, store) && Parts(c) !! StoreParts(store) && Honest(c) && !c.subscription.closed
    requires Bystanders(others, parts, held, history) && parts !! Parts(c) && parts !! StoreParts(store)
    modifies c.subscription`closed, c.subscription.events
    modifies store`activeQueries, store`leases, store.storage`orderedSlotIndexes
    modifies store.storage`scalarPredicateIndexes, store.storage.rowChangeJournal
    ensures store.Valid() && store.History() == old(store.History()) && Honest(c) && c.subscription.closed
    ensures Bystanders(others, parts, held, history) && store.leases == LeasesAfter(old(store.leases), c)
  {
    hide Store.Valid, Bystanders;
    CloseConnection(c, store);
  }

  /** The subscription is ended with a status. */
  method EndConnection(c: Connection, store: Store, status: LiveEvent)
    requires store.Valid() && Linked(c, store) && Parts(c) !! StoreParts(store) && Honest(c) && !c.subscription.closed
    requires status.StatusEvent? && status.status == Closed
    modifies c.subscription`closed, c.subscription.events
    modifies store`activeQueries, store`leases, store.storage`orderedSlotIndexes
    modifies store.storage`scalarPredicateIndexes, store.storage.rowChangeJournal
    ensures store.Valid() && store.History() == old(store.History()) && Honest(c) && c.subscription.closed
    ensures store.leases == LeasesAfter(old(store.leases), c)
    ensures c.subscription.events.queue == [status]
  {
    hide Store.Valid;
    ghost var consumed := c.subscription.events.consumed;
    RemoteRelays(c.remote);
    c.subscription.CloseWith(status);
    RemoteGoesOn(c, consumed);
  }

  method EndOne(c: Connection, store: Store, status: LiveEvent, ghost others: seq<Connection>, ghost parts: set<object>,
                ghost held: seq<Option<Lease>>, ghost history: seq<Table>)
    requires store.Valid() && Linked(c, store) && Parts(c) !! StoreParts(store) && Honest(c) && !c.subscription.closed
    requires status.StatusEvent? && status.status == Closed
    requires Bystanders(others, parts, held, history) && parts !! Parts(c) && parts !! StoreParts(store)
    modifies c.subscription`closed, c.subscription.events
    modifies store`activeQueries, store`leases, store.storage`orderedSlotIndexes
    modifies store.storage`scalarPredicateIndexes, store.storage.rowChangeJournal
    ensures store.Valid() && store.History() == old(store.History()) && Honest(c) && c.subscription.closed
    ensures Bystanders(others, parts, held, history) && store.leases == LeasesAfter(old(store.leases), c)
    ensures c.subscription.events.queue == [status]
  {
    hide Store.Valid, Bystanders;
    EndConnection(c, store, status);
  }

  /** The next event, or the end of the events, reaches the client's queue. */
  method RelayOne(c: Connection, ghost others: seq<Connection>, ghost parts: set<object>,
                  ghost held: seq<Option<Lease>>, ghost history: seq<Table>)
    returns (relaying: bool)
    requires InOrder(c, history) && c.remote.source == c.subscription.events && c.remote.running
    requires Bystanders(others, parts, held, history) && parts !! Parts(c)
    modifies c.remote, c.remote.source, c.remote.queue
    ensures InOrder(c, history) && Bystanders(others, parts, held, history)
    ensures relaying <==> old(c.remote.source.queue) != []
    ensures relaying ==>
      && c.remote.relayed == old(c.remote.relayed) + [old(c.remote.source.queue)[0]]
      && c.remote.source.queue == old(c.remote.source.queue)[1..]
    ensures relaying && |old(c.remote.queue.queue)| < c.remote.queue.capacity ==>
      c.remote.running && c.remote.queue.queue == old(c.remote.queue.queue) + [old(c.remote.source.queue)[0]]
    ensures relaying && |old(c.remote.queue.queue)| >= c.remote.queue.capacity ==>
      && !c.remote.running && c.remote.lifecycleClosed
      && c.remote.queue.queue == [R.SubscriptionOverflowStatus(c.remote.queue.capacity)]
    ensures !relaying ==>
      && c.remote.relayed == old(c.remote.relayed) && c.remote.queue.queue == old(c.remote.queue.queue)
      && c.remote.running == !c.remote.source.ended
    ensures c.remote.queue.consumed == old(c.remote.queue.consumed)
  {
    hide R.SubscriptionOverflowStatus, Bystanders;
    relaying := c.remote.Relay();
  }

  /** The first queue fails. */
  method FailOne(c: Connection, error: R.RemoteError, ghost others: seq<Connection>, ghost parts: set<object>,
                 ghost held: seq<Option<Lease>>, ghost history: seq<Table>)
    requires InOrder(c, history) && c.remote.source == c.subscription.events && c.remote.running
    requires Bystanders(others, parts, held, history) && parts !! Parts(c)
    modifies c.remote, c.remote.queue
    ensures InOrder(c, history) && Bystanders(others, parts, held, history)
    ensures !c.remote.running && c.remote.queue.ended && c.remote.queue.consumed == old(c.remote.queue.consumed)
    ensures c.remote.relayed == old(c.remote.relayed) + [R.SubscriptionFailureStatus(error)]
    ensures c.remote.queue.queue != [] && R.EndsReadiness(c.remote.queue.queue[|c.remote.queue.queue| - 1])
  {
    hide R.SubscriptionFailureStatus, Bystanders, R.EndsReadiness;
    c.remote.Fail(error);
  }

  /** The client's scope closes. */
  method CloseRemoteOf(c: Connection, ghost others: seq<Connection>, ghost parts: set<object>,
                       ghost held: seq<Option<Lease>>, ghost history: seq<Table>)
    requires InOrder(c, history) && c.remote.source == c.subscription.events
    requires Bystanders(others, parts, held, history) && parts !! Parts(c)
    modifies c.remote, c.remote.queue
    ensures InOrder(c, history) && Bystanders(others, parts, held, history)
    ensures !c.remote.running && c.remote.lifecycleClosed && c.remote.closes == 1
    ensures c.remote.queue.queue == old(c.remote.queue.queue)
    ensures c.remote.queue.consumed == old(c.remote.queue.consumed)
  {
    c.remote.Close();
  }

  /** The client reads its next event. */
  method ReadOne(c: Connection, ghost others: seq<Connection>, ghost parts: set<object>, ghost held: seq<Option<Lease>>,
                 ghost history: seq<Table>)
    returns (event: Option<LiveEvent>)
    requires InOrder(c, history) && c.remote.source == c.subscription.events
    requires Bystanders(others, parts, held, history) && parts !! Parts(c)
    modifies c.remote.queue
    ensures InOrder(c, history) && Bystanders(others, parts, held, history)
    ensures event.None? <==> old(c.remote.queue.queue) == []
    ensures event.Some? ==> event.value == old(c.remote.queue.queue)[0]
    ensures event.Some? ==> c.remote.queue.consumed == old(c.remote.queue.consumed) + [event.value]
    ensures event.None? ==> c.remote.queue.consumed == old(c.remote.queue.consumed)
  {
    event := c.remote.Read();
  }

  lemma OpenQueueIsValid(subscription: Subscription)
    requires subscription.Told() && !subscription.closed
    ensures subscription.events.Valid() && subscription.events.terminal.None?
  {
  }

  /** The queues have the sizes asked for, the second at least one. */
  ghost predicate HasRoom(c: Connection, capacity: nat, subscriptionBufferSize: int) {
    && c.subscription.events.capacity == capacity
    && c.remote.queue.capacity == if subscriptionBufferSize > 0 then subscriptionBufferSize else 1
  }

  /** A subscription is opened, and a remote one on top of it. */
  method OpenConnection(store: Store, query: LiveQuery, capacity: nat, subscriptionBufferSize: int,
                        ghost answer: Answer)
    returns (c: Connection)
    requires store.Valid() && ValidLiveQuery(query, store.storage.Fields()) && capacity > 0
    requires AnswersQuery(answer, query, store.texts) && Answering(answer)
    modifies store`activeQueries, store`leases, store.storage`orderedSlotIndexes
    modifies store.storage`scalarPredicateIndexes, store.storage.rowChangeJournal
    ensures store.Valid() && store.History() == old(store.History()) && fresh(Parts(c))
    ensures Linked(c, store) && Answered(c) && InOrder(c, store.History()) && Current(c, store.Head())
    ensures LeaseHeld(c) == Some(LeaseOf(query, store.texts)) && c.subscription.query == query && c.remote.running
    ensures HasRoom(c, capacity, subscriptionBufferSize)
    ensures store.leases == old(store.leases) + multiset{LeaseOf(query, store.texts)}
  {
    hide Store.Valid, Subscription.Answerable, AnswersQuery, Answering, Subscription.Told, Subscription.OnHistory,
         LeaseOf, Shows, R.RemoteSubscription.Valid;
    var subscription := new Subscription(store, query, capacity, answer);
    OpenQueueIsValid(subscription);
    var remote := new R.RemoteSubscription(subscription.events, subscriptionBufferSize);
    c := Connection(subscription, remote);
  }

  method OpenOne(store: Store, query: LiveQuery, capacity: nat, subscriptionBufferSize: int,
                 ghost others: seq<Connection>, ghost parts: set<object>, ghost held: seq<Option<Lease>>,
                 ghost taken: set<object>)
    returns (c: Connection)
    requires store.Valid() && ValidLiveQuery(query, store.storage.Fields()) && capacity > 0
    requires Bystanders(others, parts, held, store.History()) && parts !! StoreParts(store)
    modifies store`activeQueries, store`leases, store.storage`orderedSlotIndexes
    modifies store.storage`scalarPredicateIndexes, store.storage.rowChangeJournal
    ensures store.Valid() && store.History() == old(store.History()) && Parts(c) !! taken
    ensures Linked(c, store) && Answered(c) && InOrder(c, store.History()) && Current(c, store.Head())
    ensures LeaseHeld(c) == Some(LeaseOf(query, store.texts)) && c.subscription.query == query && c.remote.running
    ensures !c.subscription.closed && HasRoom(c, capacity, subscriptionBufferSize)
    ensures Bystanders(others, parts, held, store.History())
    ensures store.leases == old(store.leases) + multiset{LeaseOf(query, store.texts)}
  {
    hide Store.Valid, Bystanders, AnswersQuery, InOrder;
    QueryHasAnswer(query, store.texts, store.storage.Fields());
    c := OpenConnection(store, query, capacity, subscriptionBufferSize, AnswerTo(query, store.texts));
  }

  function ResetStatus(): (status: LiveEvent)
    ensures status.StatusEvent? && status.status == Closed && status.code == "SubscriptionClosed"
  {
    StatusEvent(Closed, "SubscriptionClosed", Some("Subscription closed because the engine reset."))
  }

  function EngineClosedStatus(): (status: LiveEvent)
    ensures status.StatusEvent? && status.status == Closed && status.code == "SubscriptionClosed"
  {
    StatusEvent(Closed, "SubscriptionClosed", Some("Subscription closed because the engine closed."))
  }

  /** A subscription that is still open is ended; those before it have been. The executions are gone, so its
      lease is too. */
  method EndNext(connections: seq<Connection>, store: Store, i: nat, status: LiveEvent, ghost parts: set<object>,
                 ghost held: seq<Option<Lease>>, ghost standings: seq<Standing>, ghost history: seq<Table>)
    requires store.Valid() && store.leases == multiset{} && AllLinked(connections, parts, store)
    requires i < |connections| == |held| == |standings| && AllInOrder(connections, parts, history)
    requires HeldBy(connections, parts) == NoneUpTo(held, i) && Within(connections[..i], parts)
    requires AllEnded(connections[..i], parts, standings, status) && status.StatusEvent? && status.status == Closed
    requires Within(connections[i..], parts) && AllStand(connections[i..], parts, standings[i..])
    modifies connections[i].subscription`closed, connections[i].subscription.events
    modifies store`activeQueries, store`leases, store.storage`orderedSlotIndexes
    modifies store.storage`scalarPredicateIndexes, store.storage.rowChangeJournal
    ensures store.Valid() && store.leases == multiset{} && store.History() == old(store.History())
    ensures AllInOrder(connections, parts, history) && HeldBy(connections, parts) == NoneUpTo(held, i + 1)
    ensures Within(connections[..i + 1], parts) && AllEnded(connections[..i + 1], parts, standings, status)
    ensures Within(connections[i + 1..], parts) && AllStand(connections[i + 1..], parts, standings[i + 1..])
  {
    hide Store.Valid, AllInOrder, HeldBy, AllEnded, Bystanders, AllStand;
    var c := connections[i];
    ghost var others := parts - Parts(c);
    FirstOnesAreOthers(connections, parts, store, i);
    LastOnesAreOthers(connections, parts, store, i);
    NextStands(connections, parts, i, standings);
    FirstOnesEnded(connections[..i], parts, others, standings, status);
    LastOnesStand(connections[i + 1..], parts, others, standings[i + 1..]);
    EndThis(connections, store, i, status, parts, held, standings[i], history);
    FirstOnesEnded(connections[..i], parts, others, standings, status);
    LastOnesStand(connections[i + 1..], parts, others, standings[i + 1..]);
    OneMoreHasEnded(connections, parts, i, standings, status);
  }

  /** The subscription itself, if it is still open. */
  method EndThis(connections: seq<Connection>, store: Store, i: nat, status: LiveEvent, ghost parts: set<object>,
                 ghost held: seq<Option<Lease>>, ghost stood: Standing, ghost history: seq<Table>)
    requires store.Valid() && store.leases == multiset{} && AllLinked(connections, parts, store)
    requires i < |connections| == |held| && AllInOrder(connections, parts, history)
    requires HeldBy(connections, parts) == NoneUpTo(held, i) && StandingOf(connections[i]) == stood
    requires status.StatusEvent? && status.status == Closed
    modifies connections[i].subscription`closed, connections[i].subscription.events
    modifies store`activeQueries, store`leases, store.storage`orderedSlotIndexes
    modifies store.storage`scalarPredicateIndexes, store.storage.rowChangeJournal
    ensures store.Valid() && store.leases == multiset{} && store.History() == old(store.History())
    ensures AllInOrder(connections, parts, history) && HeldBy(connections, parts) == NoneUpTo(held, i + 1)
    ensures EndedWith(connections[i], stood, status)
  {
    hide Store.Valid, AllInOrder, HeldBy, Bystanders;
    var c := connections[i];
    Divide(connections, parts, store, i, history);
    NoneUpToNext(held, i);
    if !c.subscription.closed {
      EndOne(c, store, status, RemoveAt(connections, i), parts - Parts(c), RemoveAt(NoneUpTo(held, i), i), history);
      Rejoin(connections, parts, i, NoneUpTo(held, i), history);
    }
  }

  method EndAll(connections: seq<Connection>, store: Store, status: LiveEvent, ghost parts: set<object>,
                ghost history: seq<Table>)
    requires store.Valid() && store.leases == multiset{} && AllLinked(connections, parts, store)
    requires AllInOrder(connections, parts, history) && status.StatusEvent? && status.status == Closed
    modifies SubscriptionsOf(connections), QueuesOf(connections), store`activeQueries, store`leases
    modifies store.storage`orderedSlotIndexes
    modifies store.storage`scalarPredicateIndexes, store.storage.rowChangeJournal
    ensures store.Valid() && store.leases == multiset{} && store.History() == old(store.History())
    ensures AllInOrder(connections, parts, store.History()) && Leases(HeldBy(connections, parts)) == multiset{}
    ensures AllEnded(connections, parts, old(Standings(connections, parts)), status)
  {
    hide Store.Valid, AllInOrder, HeldBy, AllEnded, AllStand, Standings;
    ghost var held, standings := HeldBy(connections, parts), Standings(connections, parts);
    NoneHasEnded(connections, parts, held, status);
    for i := 0 to |connections|
      invariant store.Valid() && store.leases == multiset{} && store.History() == old(store.History())
      invariant AllInOrder(connections, parts, history) && HeldBy(connections, parts) == NoneUpTo(held, i)
      invariant Within(connections[..i], parts) && AllEnded(connections[..i], parts, standings, status)
      invariant Within(connections[i..], parts) && AllStand(connections[i..], parts, standings[i..])
    {
      assert Parts(connections[i]) <= parts && connections[i] in connections;
      EndNext(connections, store, i, status, parts, held, standings, history);
    }
    assert connections[..|connections|] == connections;
    AllClosedAreInOrder(connections, parts, held, history, store.History());
  }

  lemma HonestClientIsExact(c: Connection)
    requires Honest(c) && c.remote.source == c.subscription.events && c.remote.queue.consumed != []
    ensures ExactOrKnown(Replayed(c.remote.queue.consumed), c.subscription.committed, c.subscription.answer)
  {
    var s, state := c.subscription, Replayed(c.remote.queue.consumed);
    var n := RemoteClientIsExactOrTold(c.remote, s.evaluations, s.tables, s.answer);
    if 1 <= n <= |s.evaluations| {
      assert CommittedAt(s.evaluations, s.tables, s.committed, n - 1);
      ToldAt(s.events.produced, s.evaluations, s.tables, s.answer, n - 1);
      if state.rows == RowsOf(s.evaluations[n - 1].window) && state.keys == KeysOf(s.evaluations[n - 1].window)
         && state.totalRows == s.evaluations[n - 1].totalRows && state.version == s.evaluations[n - 1].version {
        ToldIsCommitted(state, s.evaluations[n - 1], s.tables[n - 1], s.committed, s.answer);
      }
    }
  }

  class LiveSystem {
    const store: Store
    var connections: seq<Connection>
    /** All parts of the connections. */
    ghost var parts: set<object>

    /** The whole system: the store is valid, every connection is in order, and the leases of the open
        subscriptions are all held. */
    ghost predicate Valid()
      reads this, parts, store, store.storage, store.storage.rowChangeJournal
    {
      && store.Valid() && this !in parts && AllLinked(connections, parts, store)
      && AllInOrder(connections, parts, store.History()) && Leases(HeldBy(connections, parts)) <= store.leases
    }

    constructor (store: Store)
      requires store.Valid()
      ensures Valid() && this.store == store && connections == []
    {
      this.store, connections, parts := store, [], {};
    }

    // ----- Mutations -----

    /** Rows are stored; every subscription goes on where it stood. */
    method Publish(prepared: seq<PreparedTopicRow>) returns (rowsChanged: nat)
      requires Valid() && forall p | p in prepared :: WellTyped(p.row, store.storage.metadata)
      modifies store.storage, store.storage.rowChangeJournal
      ensures Valid() && store.storage.Stored() == PutAll(old(store.storage.Stored()), prepared)
      ensures rowsChanged == |ChangesAt(old(store.storage.Stored()), prepared)|
      ensures store.History() == old(store.History()) +
              if ChangesAt(old(store.storage.Stored()), prepared) == {} then [] else [store.storage.Stored()]
    {
      hide Store.Valid, AllInOrder, Holds, HeldBy, ChangesAt;
      ghost var history, held := store.History(), HeldBy(connections, parts);
      assert Bystanders(connections, parts, held, history);
      rowsChanged := store.Publish(prepared);
      BystandersLater(connections, parts, held, history, store.History());
    }

    method Delete(key: string) returns (rowsChanged: nat)
      requires Valid()
      modifies store.storage, store.storage.rowChangeJournal
      ensures Valid() && store.storage.Stored() == old(store.storage.Stored()) - {key}
      ensures rowsChanged == if key in old(store.storage.Stored()) then 1 else 0
      ensures store.History() ==
              old(store.History()) + if key in old(store.storage.Stored()) then [store.storage.Stored()] else []
    {
      hide Store.Valid, AllInOrder, Holds, HeldBy;
      ghost var history, held := store.History(), HeldBy(connections, parts);
      assert Bystanders(connections, parts, held, history);
      rowsChanged := store.Delete(key);
      BystandersLater(connections, parts, held, history, store.History());
    }

    // ----- The engine's end of a connection -----

    /** A new connection that shares no part with the others and holds its lease. */
    method Add(c: Connection)
      requires store.Valid() && this !in parts + Parts(c) && AllLinked(connections, parts, store)
      requires AllInOrder(connections, parts, store.History()) && InOrder(c, store.History())
      requires Linked(c, store) && Answered(c) && Parts(c) !! parts && Parts(c) !! StoreParts(store)
      requires Leases(HeldBy(connections, parts)) + One(LeaseHeld(c)) <= store.leases
      modifies `connections, `parts
      ensures Valid() && connections == old(connections) + [c]
    {
      hide Store.Valid, AllInOrder, InOrder, HeldBy, Answered, Linked, LeaseHeld, Holds, Bystanders;
      ghost var held := HeldBy(connections, parts);
      AllAreBystanders(connections, parts, store.History());
      Joined(connections, parts, store, c, held, store.History());
      LeasesAppend(held, LeaseHeld(c));
      connections, parts := connections + [c], parts + Parts(c);
    }

    /** A client subscribes to a query: the new connection is current. */
    method Subscribe(query: LiveQuery, capacity: nat, subscriptionBufferSize: int)
      requires Valid() && ValidLiveQuery(query, store.storage.Fields()) && capacity > 0
      modifies this, store`activeQueries, store`leases, store.storage`orderedSlotIndexes
      modifies store.storage`scalarPredicateIndexes, store.storage.rowChangeJournal
      ensures Valid() && store.History() == old(store.History())
      ensures connections != [] && connections[..|connections| - 1] == old(connections)
      ensures var c := connections[|connections| - 1];
              && c.subscription.query == query && !c.subscription.closed && c.remote.running
              && Current(c, store.Head()) && HasRoom(c, capacity, subscriptionBufferSize)
    {
      hide Store.Valid, AllInOrder, InOrder, ValidLiveQuery, Current, Answered, Linked, HeldBy, LeaseOf, Bystanders,
          LeaseHeld, Holds;
      ghost var held := HeldBy(connections, parts);
      AllAreBystanders(connections, parts, store.History());
      var c := OpenOne(store, query, capacity, subscriptionBufferSize, connections, parts, held,
                       parts + {this} + StoreParts(store));
      AllAreInOrder(connections, parts, held, store.History());
      Add(c);
    }

    /** The subscriber is told what has changed since it was last told. */
    method Notify(i: nat)
      requires Valid() && i < |connections| && !connections[i].subscription.closed
      modifies connections[i].subscription, connections[i].subscription.events
      modifies store`activeQueries, store`leases, store.storage`orderedSlotIndexes
      modifies store.storage`scalarPredicateIndexes, store.storage.rowChangeJournal
      ensures Valid() && store.History() == old(store.History()) && Current(connections[i], store.Head())
      ensures
        var subscription := connections[i].subscription;
        subscription.Notified(old(subscription.cursor), old(subscription.events.queue), store.Head())
    {
      hide Store.Valid, AllInOrder, InOrder, HeldBy, Bystanders;
      var c := connections[i];
      ghost var history, leases, held := store.History(), store.leases, HeldBy(connections, parts);
      Divide(connections, parts, store, i, history);
      StepKeepsLeases(held, i, leases);
      assert Answered(c);
      NotifyOne(c, store, RemoveAt(connections, i), parts - Parts(c), RemoveAt(held, i));
      Rejoin(connections, parts, i, held, history);
    }

    /** The subscriber leaves. */
    method CloseSubscription(i: nat)
      requires Valid() && i < |connections| && !connections[i].subscription.closed
      modifies connections[i].subscription`closed, connections[i].subscription.events
      modifies store`activeQueries, store`leases, store.storage`orderedSlotIndexes
      modifies store.storage`scalarPredicateIndexes, store.storage.rowChangeJournal
      ensures Valid() && store.History() == old(store.History()) && connections[i].subscription.closed
    {
      hide Store.Valid, AllInOrder, InOrder, HeldBy, Bystanders;
      var c := connections[i];
      ghost var history, leases, held := store.History(), store.leases, HeldBy(connections, parts);
      Divide(connections, parts, store, i, history);
      StepKeepsLeases(held, i, leases);
      CloseOne(c, store, RemoveAt(connections, i), parts - Parts(c), RemoveAt(held, i), history);
      Rejoin(connections, parts, i, held, history);
    }

    /** A subscription that is still open is told; those before it have been. */
    method NotifyNext(i: nat, ghost standings: seq<Standing>)
      requires Valid() && i < |connections| == |standings| && Within(connections[..i], parts)
      requires AllNotified(connections[..i], parts, standings[..i], store.Head())
      requires Within(connections[i..], parts) && AllStand(connections[i..], parts, standings[i..])
      modifies connections[i].subscription, connections[i].subscription.events
      modifies store`activeQueries, store`leases, store.storage`orderedSlotIndexes
      modifies store.storage`scalarPredicateIndexes, store.storage.rowChangeJournal
      ensures Valid() && store.History() == old(store.History())
      ensures Within(connections[..i + 1], parts)
      ensures AllNotified(connections[..i + 1], parts, standings[..i + 1], store.Head())
      ensures Within(connections[i + 1..], parts) && AllStand(connections[i + 1..], parts, standings[i + 1..])
    {
      hide Store.Valid, AllInOrder, HeldBy, InOrder, AllNotified, AllStand, Subscription.Notified, Current;
      ghost var others, head := parts - Parts(connections[i]), store.Head();
      FirstOnesAreOthers(connections, parts, store, i);
      LastOnesAreOthers(connections, parts, store, i);
      NextStands(connections, parts, i, standings);
      FirstOnesNotified(connections[..i], parts, others, standings[..i], head);
      LastOnesStand(connections[i + 1..], parts, others, standings[i + 1..]);
      if !connections[i].subscription.closed {
        Notify(i);
      } else {
        ClosedIsCurrent(connections[i], head);
      }
      FirstOnesNotified(connections[..i], parts, others, standings[..i], head);
      LastOnesStand(connections[i + 1..], parts, others, standings[i + 1..]);
      OneMoreIsNotified(connections, parts, i, standings, head);
    }

    /** After a mutation every open subscription is told, one after the other: then each of them shows the
        table as last committed, unless its queue had no room for what it had to be told. */
    method NotifyAll()
      requires Valid()
      modifies SubscriptionsOf(connections), QueuesOf(connections), store`activeQueries, store`leases
      modifies store.storage`orderedSlotIndexes
      modifies store.storage`scalarPredicateIndexes, store.storage.rowChangeJournal
      ensures Valid() && store.History() == old(store.History()) && AllCurrent(connections, parts, store.Head())
      ensures AllNotified(connections, parts, old(Standings(connections, parts)), store.Head())
    {
      hide Store.Valid, AllInOrder, HeldBy, InOrder, AllNotified, AllStand, AllCurrent, Standings;
      ghost var standings := Standings(connections, parts);
      NoneIsNotified(connections, parts, store.Head());
      for i := 0 to |connections|
        invariant Valid() && store.History() == old(store.History()) && Within(connections[..i], parts)
        invariant AllNotified(connections[..i], parts, standings[..i], store.Head())
        invariant Within(connections[i..], parts) && AllStand(connections[i..], parts, standings[i..])
      {
        assert Parts(connections[i]) <= parts && connections[i] in connections;
        NotifyNext(i, standings);
      }
      assert connections[..|connections|] == connections && standings[..|connections|] == standings;
      NotifiedAreCurrent(connections, parts, standings, store.Head());
    }

    // ----- Ends -----

    /** The store is emptied and every open subscription is told that it has ended. */
    method Reset()
      requires Valid()
      modifies SubscriptionsOf(connections), QueuesOf(connections), store, store.storage
      modifies store.storage.rowChangeJournal
      ensures Valid() && store.History() == [map[]]
      ensures AllEnded(connections, parts, old(Standings(connections, parts)), ResetStatus())
    {
      hide Store.Valid, AllInOrder, HeldBy, AllEnded, ResetStatus, Standings, AllStand, Answered, LeaseOf;
      ghost var history := store.History();
      store.Reset();
      EndAll(connections, store, ResetStatus(), parts, history);
    }

    /** The engine closes: the rows stay, and every open subscription is told that it has ended. */
    method CloseSubscriptions()
      requires Valid()
      modifies SubscriptionsOf(connections), QueuesOf(connections), store`activeQueries, store`leases
      modifies store.storage`orderedSlotIndexes
      modifies store.storage`scalarPredicateIndexes, store.storage.rowChangeJournal
      ensures Valid() && store.History() == old(store.History())
      ensures AllEnded(connections, parts, old(Standings(connections, parts)), EngineClosedStatus())
    {
      hide Store.Valid, AllInOrder, HeldBy, AllEnded, EngineClosedStatus, Standings, AllStand, Answered, LeaseOf;
      ghost var history := store.History();
      store.CloseQueries();
      EndAll(connections, store, EngineClosedStatus(), parts, history);
    }

    // ----- The client's end of a connection -----

    /** The next event, or the end of the events, reaches the client's queue. */
    method Relay(i: nat) returns (relaying: bool)
      requires Valid() && i < |connections| && connections[i].remote.running
      modifies connections[i].remote, connections[i].remote.source, connections[i].remote.queue
      ensures Valid()
      ensures relaying <==> old(connections[i].remote.source.queue) != []
      ensures
        var remote := connections[i].remote;
        && (relaying ==>
              && remote.relayed == old(remote.relayed) + [old(remote.source.queue)[0]]
              && remote.source.queue == old(remote.source.queue)[1..])
        && (relaying && |old(remote.queue.queue)| < remote.queue.capacity ==>
              remote.running && remote.queue.queue == old(remote.queue.queue) + [old(remote.source.queue)[0]])
        && (relaying && |old(remote.queue.queue)| >= remote.queue.capacity ==>
              && !remote.running && remote.lifecycleClosed
              && remote.queue.queue == [R.SubscriptionOverflowStatus(remote.queue.capacity)])
        && (!relaying ==>
              && remote.relayed == old(remote.relayed) && remote.queue.queue == old(remote.queue.queue)
              && remote.running == !remote.source.ended)
        && remote.queue.consumed == old(remote.queue.consumed)
    {
      hide Store.Valid, AllInOrder, InOrder, HeldBy, Bystanders, R.SubscriptionOverflowStatus;
      var c := connections[i];
      ghost var held := HeldBy(connections, parts);
      Divide(connections, parts, store, i, store.History());
      relaying := RelayOne(c, RemoveAt(connections, i), parts - Parts(c), RemoveAt(held, i), store.History());
      Rejoin(connections, parts, i, held, store.History());
    }

    /** The first queue fails. */
    method Fail(i: nat, error: R.RemoteError)
      requires Valid() && i < |connections| && connections[i].remote.running
      modifies connections[i].remote, connections[i].remote.queue
      ensures Valid()
      ensures
        var remote := connections[i].remote;
        && !remote.running && remote.queue.ended && remote.queue.consumed == old(remote.queue.consumed)
        && remote.relayed == old(remote.relayed) + [R.SubscriptionFailureStatus(error)]
        && remote.queue.queue != [] && R.EndsReadiness(remote.queue.queue[|remote.queue.queue| - 1])
    {
      hide Store.Valid, AllInOrder, InOrder, HeldBy, Bystanders, R.SubscriptionFailureStatus, R.EndsReadiness;
      var c := connections[i];
      ghost var held := HeldBy(connections, parts);
      Divide(connections, parts, store, i, store.History());
      FailOne(c, error, RemoveAt(connections, i), parts - Parts(c), RemoveAt(held, i), store.History());
      Rejoin(connections, parts, i, held, store.History());
    }

    /** The client's scope closes. */
    method CloseRemote(i: nat)
      requires Valid() && i < |connections|
      modifies connections[i].remote, connections[i].remote.queue
      ensures Valid()
      ensures
        var remote := connections[i].remote;
        && !remote.running && remote.lifecycleClosed && remote.closes == 1
        && remote.queue.queue == old(remote.queue.queue) && remote.queue.consumed == old(remote.queue.consumed)
    {
      hide Store.Valid, AllInOrder, InOrder, HeldBy, Bystanders;
      var c := connections[i];
      ghost var held := HeldBy(connections, parts);
      Divide(connections, parts, store, i, store.History());
      CloseRemoteOf(c, RemoveAt(connections, i), parts - Parts(c), RemoveAt(held, i), store.History());
      Rejoin(connections, parts, i, held, store.History());
    }

    /** The client reads its next event. */
    method Read(i: nat) returns (event: Option<LiveEvent>)
      requires Valid() && i < |connections|
      modifies connections[i].remote.queue
      ensures Valid()
      ensures event.None? <==> old(connections[i].remote.queue.queue) == []
      ensures event.Some? ==>
        && event.value == old(connections[i].remote.queue.queue)[0]
        && connections[i].remote.queue.consumed == old(connections[i].remote.queue.consumed) + [event.value]
    {
      hide Store.Valid, AllInOrder, InOrder, HeldBy, Bystanders;
      var c := connections[i];
      ghost var held := HeldBy(connections, parts);
      Divide(connections, parts, store, i, store.History());
      event := ReadOne(c, RemoveAt(connections, i), parts - Parts(c), RemoveAt(held, i), store.History());
      Rejoin(connections, parts, i, held, store.History());
    }

    // ----- The client -----

    /** In every reachable state, a client that has read anything shows exactly what its query shows of the
        table committed at the version it reports, or it knows that it may be old. */
    lemma ClientIsExactOrKnowsItMayBeOld(i: nat)
      requires Valid() && i < |connections| && connections[i].remote.queue.consumed != []
      ensures
        var c := connections[i];
        var subscription := c.subscription;
        && AnswersQuery(subscription.answer, subscription.query, store.texts)
        && ExactOrKnown(Replayed(c.remote.queue.consumed), subscription.committed, subscription.answer)
        && (!subscription.closed ==> subscription.committed <= store.History())
    {
      var c := connections[i];
      assert Linked(c, store) && Answered(c) && InOrder(c, store.History());
      HonestClientIsExact(c);
    }

    /** Once an open subscription has been told of the last commit and both queues are drained, its client
        shows what the query shows of the rows as last committed. */
    lemma CurrentClientShowsTheHead(i: nat)
      requires Valid() && i < |connections| && Current(connections[i], store.Head())
      requires !connections[i].subscription.closed && connections[i].remote.running
      requires connections[i].subscription.events.queue == [] && connections[i].remote.queue.queue == []
      ensures
        var state := Replayed(connections[i].remote.queue.consumed);
        && state.status == Ready && |state.rows| == |state.keys|
        && Shown(Zip(state.keys, state.rows), state.totalRows) == connections[i].subscription.answer(store.Head())
    {
      hide Store.Valid, AnswersQuery, Answered, Holds, HeldBy;
      var c := connections[i];
      var s := c.subscription;
      assert Linked(c, store) && InOrder(c, store.History());
      DrainedRemoteClientIsCurrent(c.remote, s.evaluations, s.tables, s.answer);
      assert Zip(KeysOf(s.cursor.window), RowsOf(s.cursor.window)) == s.cursor.window;
    }
  }
}
