/** Alert rows and queue rows together, for sources other than CAP: publications come in the
    order of their revisions, because the current revision of an alert never falls. */
module PublicationRuns {
  import opened Recipients
  import A = AlertRevisions
  import P = DeliveryProtocol
  import R = RecipientRuns
  import CapMessages
  import opened Optional

  datatype State = State(alerts: A.Table, queue: Queue)

  /** `Change` writes alert rows.  `Tell` publishes an alert row as it stands: the one a
      transaction has just persisted, found again or expired. */
  datatype Event =
    | Change(change: A.Event)
    | Tell(row: nat, enabled: set<P.Channel>, matched: seq<Candidate>)
    | Decide(entry: nat, status: P.QueueStatus)

  function PublishedOf(r: A.Revision): Published {
    Published(r.notice.key, r.number, r.notice.kind, r.status, r.current)
  }

  ghost predicate Step(s: State, e: Event, s': State) {
    match e
    case Change(change) => A.Step(s.alerts, change, s'.alerts) && s'.queue == s.queue
    case Tell(row, enabled, matched) =>
      row < |s.alerts| && s'.alerts == s.alerts &&
      s'.queue == Enqueued(s.queue, PublishedOf(s.alerts[row]), enabled, matched)
    case Decide(entry, status) => s'.alerts == s.alerts && R.Step(s.queue, R.Decide(entry, status), s'.queue)
  }

  ghost predicate IsRun(states: seq<State>, events: seq<Event>) {
    && |states| == |events| + 1 && states[0] == State([], [])
    && forall n | 0 <= n < |events| :: Step(states[n], events[n], states[n + 1])
  }

  // ------------------------------------------------------------- the two halves

  /** A sweep over no source changes no row. */
  const NO_CHANGE := A.Sweep(0, {}, None)

  function OnAlerts(e: Event): A.Event {
    if e.Change? then e.change else NO_CHANGE
  }

  /** A publication that is not current adds nothing. */
  const NO_NEWS := Published(A.AlertKey("", ""), 0, CapMessages.Alert, CapMessages.Active, false)

  function OnQueue(s: State, e: Event): R.Event {
    match e
    case Change(_) => R.Publish(NO_NEWS, {}, [])
    case Tell(row, enabled, matched) =>
      if row < |s.alerts| then R.Publish(PublishedOf(s.alerts[row]), enabled, matched) else R.Publish(NO_NEWS, {}, [])
    case Decide(entry, status) => R.Decide(entry, status)
  }

  function AlertEvents(events: seq<Event>): seq<A.Event> {
    seq(|events|, n requires 0 <= n < |events| => OnAlerts(events[n]))
  }

  function QueueEvents(states: seq<State>, events: seq<Event>): seq<R.Event>
    requires |events| <= |states|
  {
    seq(|events|, n requires 0 <= n < |events| => OnQueue(states[n], events[n]))
  }

  function Tables(states: seq<State>): seq<A.Table> {
    seq(|states|, n requires 0 <= n < |states| => states[n].alerts)
  }

  function Queues(states: seq<State>): seq<Queue> {
    seq(|states|, n requires 0 <= n < |states| => states[n].queue)
  }

  lemma StepOfHalves(s: State, e: Event, s': State)
    requires Step(s, e, s')
    ensures A.Step(s.alerts, OnAlerts(e), s'.alerts) && R.Step(s.queue, OnQueue(s, e), s'.queue)
  {}

  lemma HalvesAreRuns(states: seq<State>, events: seq<Event>)
    requires IsRun(states, events)
    ensures A.IsRun(Tables(states), AlertEvents(events)) && R.IsRun(Queues(states), QueueEvents(states, events))
  {
    forall n | 0 <= n < |events|
      ensures A.Step(Tables(states)[n], AlertEvents(events)[n], Tables(states)[n + 1])
      ensures R.Step(Queues(states)[n], QueueEvents(states, events)[n], Queues(states)[n + 1])
    {
      assert Step(states[n], events[n], states[n + 1]);
      StepOfHalves(states[n], events[n], states[n + 1]);
    }
  }

  // ------------------------------------------------------------------- the order

  /** The event publishes the current row of the alert. */
  predicate TellsCurrent(s: State, e: Event, key: AlertKey) {
    e.Tell? && e.row < |s.alerts| && s.alerts[e.row].notice.key == key && s.alerts[e.row].current
  }

  lemma PublishesIff(states: seq<State>, events: seq<Event>, key: AlertKey, n: nat)
    requires IsRun(states, events) && n < |events|
    ensures R.Publishes(QueueEvents(states, events)[n], key) <==> TellsCurrent(states[n], events[n], key)
    ensures TellsCurrent(states[n], events[n], key) ==>
              QueueEvents(states, events)[n].alert.revision == states[n].alerts[events[n].row].number
  {}

  /** Publications of an alert always come in the order of its revisions. */
  lemma PublicationsAreInOrder(states: seq<State>, events: seq<Event>, key: AlertKey)
    requires IsRun(states, events)
    ensures R.InOrder(QueueEvents(states, events), key)
  {
    var es := QueueEvents(states, events);
    HalvesAreRuns(states, events);
    forall m, n | 0 <= m <= n < |es| && R.Publishes(es[m], key) && R.Publishes(es[n], key)
      ensures es[m].alert.revision <= es[n].alert.revision
    {
      PublishesIff(states, events, key, m);
      PublishesIff(states, events, key, n);
      A.CurrentNeverFalls(Tables(states), AlertEvents(events), m, n, key, events[m].row, events[n].row);
    }
  }

  // -------------------------------------------------------------- what follows from it

  /** No event between two moments gives up on the recipient. */
  ghost predicate AllGentle(states: seq<State>, events: seq<Event>, key: AlertKey, who: Who, m: nat, n: nat)
    requires n <= |events| <= |states|
  {
    forall k | m <= k < n :: R.Gentle(states[k].queue, OnQueue(states[k], events[k]), key, who)
  }

  /** Whoever was told about an alert has exactly one row for every later follow-up, as long
      as nothing gives up on the recipient; the order of publications is no premise. */
  lemma NoRecipientIsLost(states: seq<State>, events: seq<Event>, key: AlertKey, who: Who, m: nat, n: nat)
    requires IsRun(states, events) && m <= n < |events| && Recipient(states[m].queue, key, who)
    requires AllGentle(states, events, key, who, m, n)
    requires TellsCurrent(states[n], events[n], key)
    requires var r := states[n].alerts[events[n].row];
             ActionOf(r.notice.kind, r.status) != Warning && who.channel in events[n].enabled
    ensures var r := states[n].alerts[events[n].row];
            R.ExactlyOne(states[n + 1].queue, Slot(who, key, r.number, ActionOf(r.notice.kind, r.status)))
  {
    HalvesAreRuns(states, events);
    PublicationsAreInOrder(states, events, key);
    PublishesIff(states, events, key, n);
    var es, qs := QueueEvents(states, events), Queues(states);
    forall k | m <= k < n ensures R.Gentle(qs[k], es[k], key, who) {}
    R.NoRecipientIsLost(qs, es, key, who, m, n);
  }

  /** After an alert has been published no open row of an older revision is left, then or
      at any later time. */
  lemma NoStaleRowSurvives(states: seq<State>, events: seq<Event>, key: AlertKey, m: nat, n: nat)
    requires IsRun(states, events) && m < n <= |events| && TellsCurrent(states[m], events[m], key)
    ensures R.NoneOlderOpen(states[n].queue, key, states[m].alerts[events[m].row].number)
  {
    HalvesAreRuns(states, events);
    PublicationsAreInOrder(states, events, key);
    PublishesIff(states, events, key, m);
    R.NoStaleRowSurvives(Queues(states), QueueEvents(states, events), key, m, n);
  }
}
