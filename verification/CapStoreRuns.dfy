/** Whole runs of CAP transactions over alert rows and queue rows: what every reachable
    store keeps, and when the order of arrivals matters. */
module CapStoreRuns {
  import opened CapMessages
  import opened Components
  import opened ReferenceGraph
  import opened CapLifecycle
  import opened CapInvariants
  import opened CapQueue
  import opened CapTransactions
  import CapRuns

  /** `Tell` queues a row about the current alert row of a lifecycle, unless its slot is
      taken; `Forget` drops a queue row together with its subscriber. */
  datatype Event =
    | Arrive(m: Message, now: int)
    | Sweep(now: int, allowed: bool)
    | Tell(alert: nat, who: Who, action: Action)
    | Forget(row: nat)

  function Told(s: Store, alert: nat, who: Who, action: Action): Store
    requires alert < |s.alerts|
  {
    var row := QueueRow(alert, who, action, s.alerts[alert].key, s.alerts[alert].revision);
    if !s.alerts[alert].current || Occupied(s.queue, |s.queue|, row) then s else s.(queue := s.queue + [row])
  }

  ghost predicate Step(s: Store, e: Event, s': Store) {
    match e
    case Arrive(m, now) => Arrival(s, m, now, s')
    case Sweep(now, allowed) => s' == s.(alerts := CapRuns.Swept(s.alerts, now, allowed))
    case Tell(alert, who, action) => s' == if alert < |s.alerts| then Told(s, alert, who, action) else s
    case Forget(row) => s' == if row < |s.queue| then s.(queue := s.queue[..row] + s.queue[row + 1..]) else s
  }

  ghost predicate IsRun(events: seq<Event>, stores: seq<Store>) {
    && |stores| == |events| + 1 && stores[0] == Store([], [])
    && forall k | 0 <= k < |events| :: Step(stores[k], events[k], stores[k + 1])
  }

  ghost predicate OneContent(events: seq<Event>) {
    forall j, k | 0 <= j < |events| && 0 <= k < |events| && events[j].Arrive? && events[k].Arrive? &&
      events[j].m.id == events[k].m.id :: events[j].m == events[k].m
  }

  // -------------------------------------------------- the alert rows of such a run

  ghost predicate RefusedAt(s: Store, e: Event) {
    e.Arrive? && Refused(s, e.m, e.now)
  }

  /** What the event does to the alert rows; a refused arrival does nothing. */
  ghost function OnAlerts(s: Store, e: Event): CapRuns.Event {
    match e
    case Arrive(m, now) => if Refused(s, m, now) then CapRuns.Idle else CapRuns.Commit(m, now)
    case Sweep(now, allowed) => CapRuns.Sweep(now, allowed)
    case _ => CapRuns.Idle
  }

  ghost function AlertEvents(events: seq<Event>, stores: seq<Store>): seq<CapRuns.Event>
    requires |events| <= |stores|
  {
    seq(|events|, k requires 0 <= k < |events| => OnAlerts(stores[k], events[k]))
  }

  ghost function AlertTables(stores: seq<Store>): seq<Table> {
    seq(|stores|, k requires 0 <= k < |stores| => stores[k].alerts)
  }

  lemma QueueStepIsSound(s: Store, e: Event, s': Store)
    requires Sound(s) && Step(s, e, s') && (e.Tell? || e.Forget?)
    ensures Sound(s') && s'.alerts == s.alerts
  {
    if e.Forget? && e.row < |s.queue| {
      forall i | 0 <= i < |s'.queue| ensures StampedLike(s'.alerts, s'.queue[i]) {
        assert StampedLike(s.alerts, s.queue[if i < e.row then i else i + 1]);
      }
    }
  }

  lemma SweepIsSound(s: Store, now: int, allowed: bool, s': Store)
    requires Sound(s) && Step(s, Sweep(now, allowed), s')
    ensures Sound(s')
  {
    CapRuns.SweepKeepsReconciled(s.alerts, now, allowed);
    forall i | 0 <= i < |s'.queue| ensures StampedLike(s'.alerts, s'.queue[i]) {
      assert StampedLike(s.alerts, s.queue[i]);
    }
  }

  lemma StepIsSound(s: Store, e: Event, s': Store)
    requires Sound(s) && Step(s, e, s') && (e.Arrive? ==> Consistent(s.alerts, e.m))
    ensures Sound(s') && CapRuns.Step(s.alerts, OnAlerts(s, e), s'.alerts)
  {
    match e
    case Arrive(m, now) => ArrivalCommitsIff(s, m, now, s');
    case Sweep(now, allowed) => SweepIsSound(s, now, allowed, s');
    case _ => QueueStepIsSound(s, e, s');
  }

  /** Every stored message has arrived. */
  ghost predicate AllArrived(t: Table, events: seq<Event>, n: nat)
    requires n <= |events|
  {
    forall m | m in Stored(t) :: exists k :: 0 <= k < n && events[k].Arrive? && events[k].m == m
  }

  lemma ArrivedIsConsistent(t: Table, events: seq<Event>, n: nat)
    requires n < |events| && OneContent(events) && AllArrived(t, events, n) && events[n].Arrive?
    ensures Consistent(t, events[n].m)
  {
    forall i: nat | i < |t| && t[i].message.id == events[n].m.id ensures t[i].message == events[n].m {
      assert t[i].message in Stored(t);
      var k :| 0 <= k < n && events[k].Arrive? && events[k].m == t[i].message;
    }
  }

  lemma StepStores(s: Store, e: Event, s': Store)
    requires Sound(s) && Step(s, e, s') && (e.Arrive? ==> Consistent(s.alerts, e.m))
    ensures Stored(s'.alerts) == Stored(s.alerts) + if e.Arrive? && !RefusedAt(s, e) then {e.m} else {}
  {
    match e
    case Arrive(m, now) => ArrivalCommitsIff(s, m, now, s');
    case Sweep(now, allowed) => CapRuns.SweepKeepsReconciled(s.alerts, now, allowed);
    case _ => QueueStepIsSound(s, e, s');
  }

  lemma StepKeepsArrived(s: Store, events: seq<Event>, n: nat, s': Store)
    requires n < |events| && AllArrived(s.alerts, events, n)
    requires Stored(s'.alerts) ==
             Stored(s.alerts) + if events[n].Arrive? && !RefusedAt(s, events[n]) then {events[n].m} else {}
    ensures AllArrived(s'.alerts, events, n + 1)
  {
    forall m | m in Stored(s'.alerts) ensures exists k :: 0 <= k < n + 1 && events[k].Arrive? && events[k].m == m {
      if m in Stored(s.alerts) {
        var k :| 0 <= k < n && events[k].Arrive? && events[k].m == m;
      }
    }
  }

  lemma StepOfRunIsSound(events: seq<Event>, stores: seq<Store>, n: nat)
    requires IsRun(events, stores) && n < |events|
    requires Sound(stores[n]) && AllArrived(stores[n].alerts, events, n)
    requires events[n].Arrive? ==> Consistent(stores[n].alerts, events[n].m)
    ensures Sound(stores[n + 1]) && AllArrived(stores[n + 1].alerts, events, n + 1)
  {
    var s, e, s' := stores[n], events[n], stores[n + 1];
    assert Step(s, e, s');
    StepIsSound(s, e, s');
    StepStores(s, e, s');
    StepKeepsArrived(s, events, n, s');
  }

  /** Every reachable store is sound: lifecycles numbered, queue rows stamped, slots unique. */
  lemma {:induction false} ReachableIsSound(events: seq<Event>, stores: seq<Store>, n: nat)
    requires IsRun(events, stores) && OneContent(events) && n <= |events|
    ensures Sound(stores[n]) && AllArrived(stores[n].alerts, events, n)
    ensures n < |events| && events[n].Arrive? ==> Consistent(stores[n].alerts, events[n].m)
  {
    if n > 0 {
      ReachableIsSound(events, stores, n - 1);
      StepOfRunIsSound(events, stores, n - 1);
    }
    if n < |events| && events[n].Arrive? { ArrivedIsConsistent(stores[n].alerts, events, n); }
  }

  /** An arrival that is refused leaves the store as it was; any other is stored. */
  lemma ArrivalIsStoredIff(events: seq<Event>, stores: seq<Store>, n: nat)
    requires IsRun(events, stores) && OneContent(events) && n < |events| && events[n].Arrive?
    ensures RefusedAt(stores[n], events[n]) ==>
              stores[n + 1] == stores[n] && events[n].m !in Stored(stores[n + 1].alerts)
    ensures !RefusedAt(stores[n], events[n]) ==> events[n].m in Stored(stores[n + 1].alerts)
  {
    ReachableIsSound(events, stores, n);
    var s, m, now := stores[n], events[n].m, events[n].now;
    assert Step(s, events[n], stores[n + 1]);
    ArrivalCommitsIff(s, m, now, stores[n + 1]);
    if m in Stored(s.alerts) { ReplayIsNeverRefused(s, m, now); }
  }

  /** The alert rows go through a run of the table model in which refused arrivals are idle. */
  lemma AlertsFollow(events: seq<Event>, stores: seq<Store>)
    requires IsRun(events, stores) && OneContent(events)
    ensures CapRuns.IsRun(AlertEvents(events, stores), AlertTables(stores))
    ensures CapRuns.OneContent(AlertEvents(events, stores))
  {
    var es, ts := AlertEvents(events, stores), AlertTables(stores);
    forall k | 0 <= k < |es| ensures CapRuns.Step(ts[k], es[k], ts[k + 1]) {
      ReachableIsSound(events, stores, k);
      assert Step(stores[k], events[k], stores[k + 1]);
      StepIsSound(stores[k], events[k], stores[k + 1]);
    }
  }

  /** In every reachable store the revisions of a lifecycle follow the sent times of its
      messages, and at equal times their senders and identifiers. */
  lemma ReachableOrder(events: seq<Event>, stores: seq<Store>, n: nat, i: nat, j: nat)
    requires IsRun(events, stores) && OneContent(events) && n <= |events|
    requires i < |stores[n].alerts| && j < |stores[n].alerts| && stores[n].alerts[i].key == stores[n].alerts[j].key
    ensures var a, b := stores[n].alerts[i], stores[n].alerts[j];
            (a.message.sentAt < b.message.sentAt ==> a.revision < b.revision) &&
            (a.message.sentAt == b.message.sentAt && IdentityPrecedes(a.message.id, b.message.id) ==>
              a.revision < b.revision) &&
            (a.current ==> b.message.sentAt <= a.message.sentAt)
  {
    ReachableIsSound(events, stores, n);
    var t := stores[n].alerts;
    LifecycleOfRow(t, i);
    if i == j {
      BeforeIffSentBefore(t[i].message, t[i].message);
    } else {
      RevisionsFollowTimes(t, i, j);
      RevisionsFollowTimes(t, j, i);
    }
  }

  // ------------------------------------------------------------------- confluence

  ghost function Arrivals(events: seq<Event>): set<Message> {
    set k | 0 <= k < |events| && events[k].Arrive? :: events[k].m
  }

  ghost predicate NoneRefused(events: seq<Event>, stores: seq<Store>) {
    |events| <= |stores| && forall k | 0 <= k < |events| :: !RefusedAt(stores[k], events[k])
  }

  lemma StepOfRunStores(events: seq<Event>, stores: seq<Store>, n: nat)
    requires IsRun(events, stores) && OneContent(events) && 0 < n <= |events|
    ensures Stored(stores[n - 1].alerts) <= Stored(stores[n].alerts)
  {
    ReachableIsSound(events, stores, n - 1);
    assert Step(stores[n - 1], events[n - 1], stores[n]);
    StepStores(stores[n - 1], events[n - 1], stores[n]);
  }

  lemma {:induction false} StoredPersists(events: seq<Event>, stores: seq<Store>, a: nat, b: nat)
    requires IsRun(events, stores) && OneContent(events) && a <= b <= |events|
    ensures Stored(stores[a].alerts) <= Stored(stores[b].alerts)
    decreases b - a
  {
    if a < b {
      StoredPersists(events, stores, a, b - 1);
      StepOfRunStores(events, stores, b);
    }
  }

  lemma ArrivalStaysStored(events: seq<Event>, stores: seq<Store>, k: nat)
    requires IsRun(events, stores) && OneContent(events) && NoneRefused(events, stores)
    requires k < |events| && events[k].Arrive?
    ensures events[k].m in Stored(stores[|events|].alerts)
  {
    ArrivalIsStoredIff(events, stores, k);
    assert !RefusedAt(stores[k], events[k]);
    StoredPersists(events, stores, k + 1, |events|);
  }

  /** When no arrival is refused, exactly the arrived messages are stored at the end. */
  lemma AllAreStored(events: seq<Event>, stores: seq<Store>)
    requires IsRun(events, stores) && OneContent(events) && NoneRefused(events, stores)
    ensures Stored(stores[|events|].alerts) == Arrivals(events)
  {
    ReachableIsSound(events, stores, |events|);
    forall m | m in Arrivals(events) ensures m in Stored(stores[|events|].alerts) {
      var k :| 0 <= k < |events| && events[k].Arrive? && events[k].m == m;
      ArrivalStaysStored(events, stores, k);
    }
  }

  /** Messages that come last in their lifecycles, and replays, are never refused. */
  lemma InOrderIsNeverRefused(events: seq<Event>, stores: seq<Store>)
    requires IsRun(events, stores) && OneContent(events)
    requires forall k | 0 <= k < |events| && events[k].Arrive? ::
               ComesLast(stores[k].alerts, events[k].m) || events[k].m in Stored(stores[k].alerts)
    ensures NoneRefused(events, stores)
  {
    forall k | 0 <= k < |events| ensures !RefusedAt(stores[k], events[k]) {
      if events[k].Arrive? {
        ReachableIsSound(events, stores, k);
        if events[k].m in Stored(stores[k].alerts) {
          ReplayIsNeverRefused(stores[k], events[k].m, events[k].now);
        } else {
          LastComerIsNeverRefused(stores[k], events[k].m, events[k].now);
        }
      }
    }
  }

  /** Row `i` of one table and row `j` of the other stand for the same message at the same
      place of the same lifecycle. */
  ghost predicate SamePlace(t: Table, i: nat, u: Table, j: nat)
    requires i < |t| && j < |u|
  {
    t[i].revision == u[j].revision && t[i].current == u[j].current &&
    CapRuns.SamePrevious(t, t[i].previous, u, u[j].previous)
  }

  /** Confluence of structure: two runs that end with the same messages stored agree on
      lifecycles, revisions, previous links and current flags, whatever was refused,
      queued, forgotten, swept or replayed on the way. */
  lemma SameStoredSameStructure(events: seq<Event>, stores: seq<Store>, events': seq<Event>, stores': seq<Store>,
                                i: nat, i2: nat, j: nat, j2: nat)
    requires IsRun(events, stores) && IsRun(events', stores') && OneContent(events) && OneContent(events')
    requires var t, u := stores[|events|].alerts, stores'[|events'|].alerts;
             Stored(t) == Stored(u) && i < |t| && i2 < |t| && j < |u| && j2 < |u| &&
             t[i].message == u[j].message && t[i2].message == u[j2].message
    ensures var t, u := stores[|events|].alerts, stores'[|events'|].alerts;
            SamePlace(t, i, u, j) && (t[i].key == t[i2].key <==> u[j].key == u[j2].key)
  {
    ReachableIsSound(events, stores, |events|);
    ReachableIsSound(events', stores', |events'|);
    var t, u := stores[|events|].alerts, stores'[|events'|].alerts;
    CapRuns.SameMessagesSameNumbering(t, u, i, j);
    CapRuns.SameMessagesSameGrouping(t, u, i, i2, j, j2);
  }

  /** So the order of arrivals does not matter in runs in which no arrival is refused. */
  lemma SameArrivalsSameStructure(events: seq<Event>, stores: seq<Store>, events': seq<Event>, stores': seq<Store>,
                                  i: nat, i2: nat, j: nat, j2: nat)
    requires IsRun(events, stores) && IsRun(events', stores') && OneContent(events) && OneContent(events')
    requires NoneRefused(events, stores) && NoneRefused(events', stores') && Arrivals(events) == Arrivals(events')
    requires var t, u := stores[|events|].alerts, stores'[|events'|].alerts;
             i < |t| && i2 < |t| && j < |u| && j2 < |u| &&
             t[i].message == u[j].message && t[i2].message == u[j2].message
    ensures var t, u := stores[|events|].alerts, stores'[|events'|].alerts;
            Stored(t) == Stored(u) == Arrivals(events) &&
            SamePlace(t, i, u, j) && (t[i].key == t[i2].key <==> u[j].key == u[j2].key)
  {
    AllAreStored(events, stores);
    AllAreStored(events', stores');
    SameStoredSameStructure(events, stores, events', stores', i, i2, j, j2);
  }

  ghost predicate OneClock(events: seq<Event>, now: int) {
    forall e | e in events :: (e.Arrive? ==> e.now == now) && (e.Sweep? ==> e.now == now)
  }

  lemma AlertEventsInherit(events: seq<Event>, stores: seq<Store>, now: int)
    requires |events| <= |stores|
    ensures CapRuns.Committed(AlertEvents(events, stores)) <= Arrivals(events)
    ensures OneClock(events, now) ==> forall e :: e in AlertEvents(events, stores) ==> CapRuns.AtClock(e, now)
  {
    var es := AlertEvents(events, stores);
    forall k | 0 <= k < |es| ensures es[k].Commit? ==> events[k].Arrive? && events[k].m == es[k].m {}
    forall m | m in CapRuns.Committed(es) ensures m in Arrivals(events) {
      var k :| 0 <= k < |es| && es[k].Commit? && es[k].m == m;
      assert events[k].Arrive?;
    }
    if OneClock(events, now) {
      forall e | e in es ensures CapRuns.AtClock(e, now) {
        var k :| 0 <= k < |es| && es[k] == e;
        assert events[k] in events;
      }
    }
  }

  /** With references inside one sender every reachable key is canonical, and with one
      clock reading every status is the reconciled one. */
  lemma ReachableNamesAndStatuses(events: seq<Event>, stores: seq<Store>, now: int)
    requires IsRun(events, stores) && OneContent(events)
    ensures (forall m :: m in Arrivals(events) ==> CapRuns.SameSender(m)) ==> CapRuns.Named(stores[|events|].alerts)
    ensures OneClock(events, now) ==> CapRuns.StatusesAt(stores[|events|].alerts, now)
  {
    AlertsFollow(events, stores);
    AlertEventsInherit(events, stores, now);
    var es, ts := AlertEvents(events, stores), AlertTables(stores);
    if forall m :: m in Arrivals(events) ==> CapRuns.SameSender(m) { CapRuns.ReachableNames(es, ts, |es|); }
    if OneClock(events, now) { CapRuns.ReachableStatuses(es, ts, now, |es|); }
  }

  /** Confluence of names and statuses. */
  lemma SameStoredSameRows(events: seq<Event>, stores: seq<Store>, events': seq<Event>, stores': seq<Store>,
                           now: int, i: nat, j: nat)
    requires IsRun(events, stores) && IsRun(events', stores') && OneContent(events) && OneContent(events')
    requires var t, u := stores[|events|].alerts, stores'[|events'|].alerts;
             Stored(t) == Stored(u) && i < |t| && j < |u| && t[i].message == u[j].message
    ensures (forall m :: m in Arrivals(events) + Arrivals(events') ==> CapRuns.SameSender(m)) ==>
              stores[|events|].alerts[i].key == stores'[|events'|].alerts[j].key
    ensures OneClock(events, now) && OneClock(events', now) ==>
              stores[|events|].alerts[i].status == stores'[|events'|].alerts[j].status
  {
    SameStoredSameStructure(events, stores, events', stores', i, i, j, j);
    ReachableNamesAndStatuses(events, stores, now);
    ReachableNamesAndStatuses(events', stores', now);
    var t, u := stores[|events|].alerts, stores'[|events'|].alerts;
    if forall m :: m in Arrivals(events) + Arrivals(events') ==> CapRuns.SameSender(m) {
      assert CapRuns.NamedAt(t, i) && CapRuns.NamedAt(u, j);
      ConnectedToSelf(GraphOf(t), t[i].message.id);
      CanonicalIsUnique(Stored(t), t[i].message.id, t[i].key.root, t[i].message.id, u[j].key.root);
    }
  }

  /** Every sequence of events has a run. */
  lemma {:induction false} RunExists(events: seq<Event>, n: nat) returns (stores: seq<Store>)
    requires OneContent(events) && n <= |events|
    ensures IsRun(events[..n], stores)
  {
    if n == 0 {
      stores := [Store([], [])];
    } else {
      var earlier := RunExists(events, n - 1);
      ReachableIsSound(events[..n - 1], earlier, n - 1);
      var s' := NextStore(earlier[n - 1], events[n - 1]);
      stores := earlier + [s'];
      forall k | 0 <= k < n ensures Step(stores[k], events[..n][k], stores[k + 1]) {
        if k < n - 1 { assert Step(earlier[k], events[..n - 1][k], earlier[k + 1]); }
      }
    }
  }

  lemma NextStore(s: Store, e: Event) returns (s': Store)
    requires UniqueIds(s.alerts)
    ensures Step(s, e, s')
  {
    match e
    case Arrive(m, now) => s' := ArrivalExists(s, m, now);
    case Sweep(now, allowed) => s' := s.(alerts := CapRuns.Swept(s.alerts, now, allowed));
    case Tell(alert, who, action) => s' := if alert < |s.alerts| then Told(s, alert, who, action) else s;
    case Forget(row) => s' := if row < |s.queue| then s.(queue := s.queue[..row] + s.queue[row + 1..]) else s;
  }
}
