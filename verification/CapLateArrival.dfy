/** One set of CAP messages, two orders of arrival: in one of them the transaction of the
    late message is rolled back, and the message is lost. */
module CapLateArrival {
  import opened Optional
  import opened CapMessages
  import opened Components
  import opened ReferenceGraph
  import opened CapLifecycle
  import opened CapInvariants
  import opened CapQueue
  import opened CapTransactions
  import opened CapStoreRuns
  import CapRuns
  import Recipients
  import P = DeliveryProtocol

  // ------------------------------------------------------- an alert and its updates

  const FIRST := Identity("a", "1")

  const ALERT := Message(FIRST, Some([]), [], 10, Alert, Active, None, 1)

  /** An update of the alert. */
  function UpdateOf(identifier: string, sentAt: int): Message {
    Message(Identity("a", identifier), Some([RawReference(None, "1", None)]), [], sentAt, Update, Active, None, sentAt)
  }

  const EARLY := UpdateOf("2", 20)
  const MIDDLE := UpdateOf("3", 30)
  const LATEST := UpdateOf("4", 40)

  predicate Follows(m: Message) {
    m.id.sender == "a" && m.id != FIRST && Links(m) == {FIRST}
  }

  lemma MessagesOfExample()
    ensures Links(ALERT) == {} && Follows(EARLY) && Follows(MIDDLE) && Follows(LATEST)
    ensures Before(ALERT, EARLY) && Before(EARLY, MIDDLE) && Before(MIDDLE, LATEST)
    ensures Before(ALERT, MIDDLE) && Before(ALERT, LATEST) && Before(EARLY, LATEST)
  {
    var r := RawReference(None, "1", None);
    assert [r][1..] == [];
    assert Referents([r], "a") == [FIRST];
  }

  /** The alert and some updates of it. */
  ghost predicate Family(ms: set<Message>) {
    ALERT in ms && forall m | m in ms :: m == ALERT || Follows(m)
  }

  lemma ArrowsOfFamily(ms: set<Message>, e: (Identity, Identity))
    requires Family(ms)
    ensures e in ArrowsOf(ms) <==> e.1 == FIRST && exists m :: m in ms && m != ALERT && m.id == e.0
  {
    MessagesOfExample();
    if m :| m in ms && m != ALERT && m.id == e.0 && e.1 == FIRST {
      assert m in ms && FIRST in Links(m);
    }
  }

  /** The messages form one component, and the alert is its only root. */
  lemma FamilyIsOneComponent(ms: set<Message>, m: Message, n: Message)
    requires Family(ms) && m in ms && n in ms
    ensures Connected(ArrowsOf(ms), m.id, n.id)
  {
    var es := ArrowsOf(ms);
    ConnectedToSelf(es, m.id);
    ConnectedToSelf(es, n.id);
    ArrowsOfFamily(ms, (m.id, FIRST));
    ArrowsOfFamily(ms, (n.id, FIRST));
    if m != ALERT { ConnectedStep(es, m.id, m.id, FIRST); }
    if n != ALERT { ConnectedStep(es, m.id, FIRST, n.id); }
  }

  lemma FamilyIsNamedByAlert(ms: set<Message>, m: Message, r: Identity)
    requires Family(ms) && m in ms && Canonical(ms, m.id, r)
    ensures r == FIRST
  {
    var es := ArrowsOf(ms);
    FamilyIsOneComponent(ms, m, ALERT);
    forall p ensures (FIRST, p) !in es { ArrowsOfFamily(ms, (FIRST, p)); AlertIsOnlyFirst(ms); }
    assert Root(es, m.id, FIRST);
    assert Root(es, m.id, r);
    if r != FIRST {
      var n: nat :| Reach(es, m.id, r, n);
      RootOfFamily(ms, m, r);
      assert false;
    }
  }

  lemma AlertIsOnlyFirst(ms: set<Message>)
    requires Family(ms)
    ensures forall m | m in ms && m.id == FIRST :: m == ALERT
  {}

  lemma RootOfFamily(ms: set<Message>, m: Message, r: Identity)
    requires Family(ms) && m in ms && r != FIRST && Connected(ArrowsOf(ms), m.id, r)
    ensures !Root(ArrowsOf(ms), m.id, r)
  {
    var es := ArrowsOf(ms);
    ConnectedIsEndpoint(es, m.id, r);
    ArrowsOfFamily(ms, (m.id, FIRST));
    if e :| e in es && e.0 == r {
      ArrowsOfFamily(ms, e);
      assert (r, FIRST) in es;
    } else if e :| e in es && e.1 == r {
      ArrowsOfFamily(ms, e);
    }
    FamilyIsOneComponent(ms, m, ALERT);
  }

  // ------------------------------------------------------------ stores of the family

  const WHO := Recipients.Who(1, P.Email)

  function ActionAt(i: nat): Action {
    if i == 0 then Recipients.Warning else Recipients.Revised
  }

  predicate IsMail(q: Queue, i: nat, x: nat) {
    x < |q| && q[x].alert == i && q[x].who == WHO && q[x].action == ActionAt(i)
  }

  ghost predicate HasMail(q: Queue, i: nat) {
    exists x: nat :: IsMail(q, i, x)
  }

  ghost predicate Lists(t: Table, ms: seq<Message>) {
    |t| == |ms| && forall i | 0 <= i < |t| :: t[i].message == ms[i]
  }

  ghost predicate AllMailed(q: Queue, n: nat) {
    forall i: nat | i < n :: HasMail(q, i)
  }

  /** The family's messages stored in the order of their sent times under the alert's key,
      the first `n` of them queued for the recipient. */
  ghost predicate InOrder(s: Store, ms: seq<Message>, n: nat) {
    && Sound(s) && Lists(s.alerts, ms) && Chronological(ms) && Family(Stored(s.alerts))
    && (forall i | 0 <= i < |s.alerts| :: s.alerts[i].key == CapKey(FIRST))
    && AllMailed(s.queue, n)
  }

  ghost predicate SameMail(p: Queue, q: Queue) {
    |p| == |q| && forall i | 0 <= i < |p| :: p[i].alert == q[i].alert && SamePair(p[i], q[i])
  }

  lemma RestampKeepsMail(s: Store, m: Message, now: int, s': Store)
    requires Sound(s) && Consistent(s.alerts, m) && Arrival(s, m, now, s')
    ensures SameMail(s.queue, s'.queue)
  {
    var u, order, root :| ArrivalWith(s, m, now, s', u, order, root);
    PlanIsRestampable(s, m, now, order, root);
    RestampedEffect(Inserted(s.alerts, m, now), s.queue, order, root, |order|);
  }

  lemma CommitAppends(s: Store, m: Message, now: int, s': Store, ms: seq<Message>)
    requires Sound(s) && Lists(s.alerts, ms) && !HasIdentity(s.alerts, m.id)
    requires Arrival(s, m, now, s') && !Refused(s, m, now)
    ensures Sound(s') && Lists(s'.alerts, ms + [m]) && SameMail(s.queue, s'.queue)
    ensures UpsertStep(s.alerts, m, now, s'.alerts) && Stored(s'.alerts) == Stored(s.alerts) + {m}
  {
    ArrivalCommitsIff(s, m, now, s');
    RestampKeepsMail(s, m, now, s');
    var order, root :| UpsertWith(s.alerts, m, now, s'.alerts, order, root);
    UpsertFacts(s.alerts, m, now, s'.alerts, order, root);
  }

  lemma FamilyCommit(s: Store, m: Message, now: int, s': Store, ms: seq<Message>)
    requires Sound(s) && Lists(s.alerts, ms) && !HasIdentity(s.alerts, m.id) && Family(Stored(s.alerts) + {m})
    requires Arrival(s, m, now, s') && !Refused(s, m, now)
    ensures Sound(s') && Lists(s'.alerts, ms + [m]) && SameMail(s.queue, s'.queue)
    ensures Stored(s'.alerts) == Stored(s.alerts) + {m}
    ensures forall i | 0 <= i < |s'.alerts| :: s'.alerts[i].key == CapKey(FIRST)
  {
    CommitAppends(s, m, now, s', ms);
    var u := s'.alerts;
    forall i: nat | i < |u| ensures u[i].key == CapKey(FIRST) {
      FamilyIsOneComponent(Stored(u), m, u[i].message);
      CapRuns.RewrittenRowIsNamed(s.alerts, m, now, u, i);
      FamilyIsNamedByAlert(Stored(u), u[i].message, u[i].key.root);
    }
  }

  function Counting(n: nat): (r: seq<nat>)
    ensures |r| == n && forall k | 0 <= k < n :: r[k] == k
  {
    seq(n, k => k)
  }

  lemma FamilyNumbers(s: Store, ms: seq<Message>, i: nat)
    requires Sound(s) && Lists(s.alerts, ms) && Chronological(ms) && Family(Stored(s.alerts)) && i < |s.alerts|
    ensures s.alerts[i].revision == i + 1 && s.alerts[i].current == (i + 1 == |s.alerts|)
  {
    var t, order := s.alerts, Counting(|s.alerts|);
    forall j: nat | j < |t| ensures j in order && Connected(GraphOf(t), t[i].message.id, t[j].message.id) {
      assert order[j] == j;
      FamilyIsOneComponent(Stored(t), t[i].message, t[j].message);
    }
    assert LifecycleOrder(t, GraphOf(t), t[i].message.id, order);
    assert InLifecycle(t, i);
    var own :| Lifecycle(t, t[i].message.id, own);
    OrderIsUnique(t, GraphOf(t), t[i].message.id, order, own);
    assert NumberedAt(t, own, i);
  }

  lemma TellQueues(s: Store, i: nat, s': Store)
    requires Sound(s) && i < |s.alerts| && s.alerts[i].current && Step(s, Tell(i, WHO, ActionAt(i)), s')
    requires forall j: nat, k: nat | j < |s.alerts| && k < |s.alerts| ::
               s.alerts[j].revision == s.alerts[k].revision ==> j == k
    ensures Sound(s') && s'.alerts == s.alerts && s.queue <= s'.queue && HasMail(s'.queue, i)
  {
    QueueStepIsSound(s, Tell(i, WHO, ActionAt(i)), s');
    var row := QueueRow(i, WHO, ActionAt(i), s.alerts[i].key, s.alerts[i].revision);
    if Occupied(s.queue, |s.queue|, row) {
      var x: nat :| x < |s.queue| && x != |s.queue| && SameSlot(s.queue[x], row);
      assert StampedLike(s.alerts, s.queue[x]);
      assert IsMail(s.queue, i, x);
    } else {
      assert IsMail(s'.queue, i, |s.queue|);
    }
  }

  /** A further update, newer than all others. */
  ghost predicate Extends(ms: seq<Message>, m: Message) {
    Follows(m) && Chronological(ms + [m]) && forall i | 0 <= i < |ms| :: ms[i].id != m.id
  }

  lemma LastOfFamily(s: Store, ms: seq<Message>, n: nat, m: Message, now: int)
    requires InOrder(s, ms, n) && Extends(ms, m)
    ensures !HasIdentity(s.alerts, m.id) && !Refused(s, m, now) && Family(Stored(s.alerts) + {m})
  {
    var t := s.alerts;
    forall i: nat | i < |t| ensures Before(t[i].message, m) && t[i].message.id != m.id {
      assert Before((ms + [m])[i], (ms + [m])[|ms|]);
    }
    assert ComesLast(t, m);
    LastComerIsNeverRefused(s, m, now);
  }

  lemma MailIsKept(p: Queue, q: Queue, n: nat)
    requires AllMailed(p, n) && (SameMail(p, q) || p <= q)
    ensures AllMailed(q, n)
  {
    forall i: nat | i < n ensures HasMail(q, i) {
      assert HasMail(p, i);
      var x: nat :| IsMail(p, i, x);
      assert IsMail(q, i, x);
    }
  }

  lemma FirstArrives(now: int, s': Store)
    requires Step(Store([], []), Arrive(ALERT, now), s')
    ensures InOrder(s', [ALERT], 0)
  {
    var s := Store([], []);
    assert ComesLast(s.alerts, ALERT);
    LastComerIsNeverRefused(s, ALERT, now);
    assert Stored(s.alerts) + {ALERT} == {ALERT};
    FamilyCommit(s, ALERT, now, s', []);
    assert [] + [ALERT] == [ALERT];
  }

  lemma NextArrives(s: Store, ms: seq<Message>, n: nat, m: Message, now: int, s': Store)
    requires InOrder(s, ms, n) && Extends(ms, m) && Step(s, Arrive(m, now), s')
    ensures InOrder(s', ms + [m], n)
  {
    LastOfFamily(s, ms, n, m, now);
    FamilyCommit(s, m, now, s', ms);
    MailIsKept(s.queue, s'.queue, n);
  }

  lemma NewestIsTold(s: Store, ms: seq<Message>, n: nat, s': Store)
    requires InOrder(s, ms, n) && |ms| == n + 1 && Step(s, Tell(n, WHO, ActionAt(n)), s')
    ensures InOrder(s', ms, n + 1)
  {
    forall i: nat | i < |s.alerts|
      ensures s.alerts[i].revision == i + 1 && s.alerts[i].current == (i + 1 == |s.alerts|)
    {
      FamilyNumbers(s, ms, i);
    }
    TellQueues(s, n, s');
    MailIsKept(s.queue, s'.queue, n);
  }

  // ----------------------------------------------------------- the order of sending

  function Tells(i: nat): Event {
    Tell(i, WHO, ActionAt(i))
  }

  /** Messages arrive one after the other, each is told before the next arrives. */
  function InTurn(ms: seq<Message>, now: int, n: nat): (events: seq<Event>)
    requires n <= |ms|
    ensures |events| == 2 * n
  {
    if n == 0 then [] else InTurn(ms, now, n - 1) + [Arrive(ms[n - 1], now), Tells(n - 1)]
  }

  /** The alert and updates of it, in the order of their sent times. */
  ghost predicate Series(ms: seq<Message>) {
    && ms != [] && ms[0] == ALERT && Chronological(ms)
    && (forall k | 0 < k < |ms| :: Follows(ms[k]))
    && (forall j, k | 0 <= j < k < |ms| :: ms[j].id != ms[k].id)
  }

  /** Message `m` arrives and its row, the one with index `k`, is told to the recipient. */
  ghost predicate ArrivesAndIsTold(s: Store, m: Message, now: int, k: nat, s': Store) {
    exists u :: Step(s, Arrive(m, now), u) && Step(u, Tells(k), s')
  }

  lemma OpensWithAlert(now: int, s': Store)
    requires ArrivesAndIsTold(Store([], []), ALERT, now, 0, s')
    ensures InOrder(s', [ALERT], 1)
  {
    var u :| Step(Store([], []), Arrive(ALERT, now), u) && Step(u, Tells(0), s');
    FirstArrives(now, u);
    NewestIsTold(u, [ALERT], 0, s');
  }

  lemma GoesOnWith(s: Store, ms: seq<Message>, m: Message, now: int, n: nat, s': Store)
    requires InOrder(s, ms, n) && |ms| == n && Extends(ms, m) && ArrivesAndIsTold(s, m, now, n, s')
    ensures InOrder(s', ms + [m], n + 1)
  {
    var u :| Step(s, Arrive(m, now), u) && Step(u, Tells(n), s');
    NextArrives(s, ms, n, m, now, u);
    NewestIsTold(u, ms + [m], n, s');
  }

  lemma NextOfSeries(ms: seq<Message>, n: nat)
    requires Series(ms) && 0 < n < |ms|
    ensures Extends(ms[..n], ms[n]) && ms[..n + 1] == ms[..n] + [ms[n]]
  {}

  lemma TurnKeepsOrder(ms: seq<Message>, now: int, n: nat, s: Store, s': Store)
    requires Series(ms) && 0 < n <= |ms| && ArrivesAndIsTold(s, ms[n - 1], now, n - 1, s')
    requires if n == 1 then s == Store([], []) else InOrder(s, ms[..n - 1], n - 1)
    ensures InOrder(s', ms[..n], n)
  {
    if n == 1 {
      OpensWithAlert(now, s');
      assert ms[..1] == [ALERT];
    } else {
      NextOfSeries(ms, n - 1);
      GoesOnWith(s, ms[..n - 1], ms[n - 1], now, n - 1, s');
    }
  }

  lemma LastTurn(ms: seq<Message>, now: int, events: seq<Event>, stores: seq<Store>, n: nat)
    requires 0 < n <= |ms| && IsRun(events, stores) && InTurn(ms, now, n) <= events
    ensures InTurn(ms, now, n - 1) <= events
    ensures ArrivesAndIsTold(stores[2 * (n - 1)], ms[n - 1], now, n - 1, stores[2 * n])
  {
    var i := 2 * (n - 1);
    assert InTurn(ms, now, n)[i] == events[i] && InTurn(ms, now, n)[i + 1] == events[i + 1];
    assert Step(stores[i], events[i], stores[i + 1]) && Step(stores[i + 1], events[i + 1], stores[i + 2]);
  }

  /** A series that arrives in order, each message told before the next, is kept whole. */
  lemma {:induction false} SeriesIsKept(ms: seq<Message>, now: int, events: seq<Event>, stores: seq<Store>, n: nat)
    requires Series(ms) && 0 < n <= |ms| && IsRun(events, stores) && InTurn(ms, now, n) <= events
    ensures InOrder(stores[2 * n], ms[..n], n)
  {
    LastTurn(ms, now, events, stores, n);
    if n > 1 { SeriesIsKept(ms, now, events, stores, n - 1); }
    TurnKeepsOrder(ms, now, n, stores[2 * (n - 1)], stores[2 * n]);
  }

  const IN_ORDER := [ALERT, EARLY, MIDDLE, LATEST]
  const WITHOUT_EARLY := [ALERT, MIDDLE, LATEST]

  lemma BothAreSeries()
    ensures Series(IN_ORDER) && Series(WITHOUT_EARLY)
  {
    MessagesOfExample();
  }

  /** In the order of their sent times all four messages are stored. */
  lemma InOrderKeepsAll(stores: seq<Store>, now: int)
    requires IsRun(InTurn(IN_ORDER, now, 4), stores)
    ensures InOrder(stores[8], IN_ORDER, 4)
  {
    BothAreSeries();
    SeriesIsKept(IN_ORDER, now, InTurn(IN_ORDER, now, 4), stores, 4);
    assert IN_ORDER[..4] == IN_ORDER;
  }

  function LateEvents(now: int): seq<Event> {
    InTurn(WITHOUT_EARLY, now, 3) + [Arrive(EARLY, now)]
  }

  lemma BeforeEarlyArrives(stores: seq<Store>, now: int)
    requires IsRun(LateEvents(now), stores)
    ensures InOrder(stores[6], WITHOUT_EARLY, 3)
  {
    BothAreSeries();
    SeriesIsKept(WITHOUT_EARLY, now, LateEvents(now), stores, 3);
    assert WITHOUT_EARLY[..3] == WITHOUT_EARLY;
  }

  // --------------------------------------------------------------- the late message

  lemma EarlyIsNew(s: Store, now: int)
    requires InOrder(s, WITHOUT_EARLY, 3)
    ensures !HasIdentity(s.alerts, EARLY.id) && Family(Stored(s.alerts) + {EARLY}) && JoinsOne(s.alerts, EARLY)
  {
    MessagesOfExample();
  }

  lemma EarlyStandsSecond(s: Store, now: int)
    requires InOrder(s, WITHOUT_EARLY, 3)
    ensures Sorted(Inserted(s.alerts, EARLY, now), [0, 3, 1, 2])
  {
    EarlyIsNew(s, now);
    MessagesOfExample();
  }

  lemma WholeFamilyIsListed(s: Store, m: Message, now: int, order: seq<nat>, root: Identity, listing: seq<nat>)
    requires Sound(s) && !HasIdentity(s.alerts, m.id) && Family(Stored(s.alerts) + {m})
    requires Planned(s.alerts, m, now, order, root) && Sorted(Inserted(s.alerts, m, now), listing)
    requires forall i: nat | i <= |s.alerts| :: i in listing
    ensures order == listing && root == FIRST
  {
    var base, ms := Inserted(s.alerts, m, now), Stored(s.alerts) + {m};
    InsertedFacts(s.alerts, m, now);
    assert Stored(base) + {m} == ms;
    FamilyIsNamedByAlert(ms, m, root);
    forall i: nat | i < |base| ensures Connected(ArrowsOf(ms), m.id, base[i].message.id) {
      assert base[i].message in Stored(base);
      FamilyIsOneComponent(ms, m, base[i].message);
    }
    OrderIsUnique(base, ArrowsOf(ms), m.id, order, listing);
  }

  lemma EarlyOrder(s: Store, now: int, order: seq<nat>, root: Identity)
    requires InOrder(s, WITHOUT_EARLY, 3) && Planned(s.alerts, EARLY, now, order, root)
    ensures order == [0, 3, 1, 2] && root == FIRST
  {
    EarlyIsNew(s, now);
    EarlyStandsSecond(s, now);
    var listing: seq<nat> := [0, 3, 1, 2];
    assert listing[0] == 0 && listing[1] == 3 && listing[2] == 1 && listing[3] == 2;
    WholeFamilyIsListed(s, EARLY, now, order, root, listing);
  }

  lemma EarlyIsRefused(s: Store, now: int)
    requires InOrder(s, WITHOUT_EARLY, 3)
    ensures Refused(s, EARLY, now)
  {
    EarlyIsNew(s, now);
    var order, root := PlanExists(s.alerts, EARLY, now);
    EarlyOrder(s, now, order, root);
    LateArrivalIsRefusedIff(s, EARLY, now, order, root, 1);
    assert HasMail(s.queue, 1) && HasMail(s.queue, 2);
    var x: nat :| IsMail(s.queue, 1, x);
    var y: nat :| IsMail(s.queue, 2, y);
    assert NeighboursMeet(s.queue, order, 1, 2, x, y);
  }

  /** When the early update comes last, its transaction is rolled back, every retry fails
      like it, and the update is never stored. */
  lemma LateUpdateIsLost(stores: seq<Store>, now: int, retry: int, s': Store)
    requires IsRun(LateEvents(now), stores)
    ensures InOrder(stores[7], WITHOUT_EARLY, 3) && stores[7] == stores[6]
    ensures EARLY !in Stored(stores[7].alerts)
    ensures Step(stores[7], Arrive(EARLY, retry), s') ==> s' == stores[7]
  {
    BeforeEarlyArrives(stores, now);
    var s := stores[6];
    EarlyIsNew(s, now);
    EarlyIsRefused(s, now);
    assert Step(s, LateEvents(now)[6], stores[7]);
    ArrivalCommitsIff(s, EARLY, now, stores[7]);
    if Step(s, Arrive(EARLY, retry), s') {
      RetryIsRefusedToo(s, EARLY, now, retry);
      ArrivalCommitsIff(s, EARLY, retry, s');
    }
  }

  lemma {:induction false} EventsOfTurns(ms: seq<Message>, now: int, n: nat, k: nat)
    requires n <= |ms| && k < 2 * n
    ensures InTurn(ms, now, n)[k].Arrive? ==> InTurn(ms, now, n)[k].m in ms
  {
    if k < 2 * n - 2 { EventsOfTurns(ms, now, n - 1, k); }
  }

  /** Both orders do occur. */
  lemma BothOrdersHaveRuns(now: int)
    ensures exists stores :: IsRun(InTurn(IN_ORDER, now, 4), stores)
    ensures exists stores :: IsRun(LateEvents(now), stores)
  {
    var a, b := InTurn(IN_ORDER, now, 4), LateEvents(now);
    BothAreSeries();
    forall k: nat | k < |a| && a[k].Arrive? ensures a[k].m in IN_ORDER { EventsOfTurns(IN_ORDER, now, 4, k); }
    forall k: nat | k < |b| && b[k].Arrive? ensures b[k].m in IN_ORDER {
      if k < 6 { EventsOfTurns(WITHOUT_EARLY, now, 3, k); }
    }
    OneContentOfSeries(a);
    OneContentOfSeries(b);
    var runA := RunExists(a, |a|);
    assert a[..|a|] == a;
    var runB := RunExists(b, |b|);
    assert b[..|b|] == b;
  }

  lemma OneContentOfSeries(events: seq<Event>)
    requires forall k | 0 <= k < |events| && events[k].Arrive? :: events[k].m in IN_ORDER
    ensures OneContent(events)
  {
    BothAreSeries();
  }
}
