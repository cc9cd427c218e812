/** Whole runs of the CAP alert rows: reachable tables, independence of the order in which
    upserts commit, and when keys carry the canonical name. */
module CapRuns {
  import opened Optional
  import opened CapMessages
  import opened Components
  import opened ReferenceGraph
  import opened CapLifecycle
  import opened CapInvariants

  // -------------------------------------------------------------- expiry sweeps

  /** The sweep's single UPDATE over the CAP rows, when the source may be swept. */
  function SweptRow(row: Row, now: int, allowed: bool): Row {
    if allowed && row.current && row.status == Active && DueBy(row.message.expiresAt, now)
    then row.(status := Expired) else row
  }

  function Swept(t: Table, now: int, allowed: bool): Table {
    seq(|t|, i requires 0 <= i < |t| => SweptRow(t[i], now, allowed))
  }

  lemma SweepKeepsReconciled(t: Table, now: int, allowed: bool)
    requires Reconciled(t)
    ensures Reconciled(Swept(t, now, allowed)) && Stored(Swept(t, now, allowed)) == Stored(t)
  {
    var u := Swept(t, now, allowed);
    StoredOfSame(t, u);
    forall i: nat | i < |u| ensures KeyedAt(u, i) && InLifecycle(u, i) {
      assert KeyedAt(t, i) && InLifecycle(t, i);
      var order :| Lifecycle(t, t[i].message.id, order);
      forall k | 0 <= k < |order| ensures NumberedAt(u, order, k) { assert NumberedAt(t, order, k); }
      assert Lifecycle(u, u[i].message.id, order);
    }
    forall i: nat, j: nat | i < |u| && j < |u| ensures OneKey(u, i, j) { assert OneKey(t, i, j); }
  }

  // ----------------------------------------------------------------------- runs

  /** An upsert that commits, an expiry sweep, or a transaction that leaves the alert rows
      as they were. */
  datatype Event = Commit(m: Message, now: int) | Sweep(now: int, allowed: bool) | Idle

  ghost predicate Step(t: Table, e: Event, u: Table) {
    match e
    case Commit(m, now) => UpsertStep(t, m, now, u)
    case Sweep(now, allowed) => u == Swept(t, now, allowed)
    case Idle => u == t
  }

  /** `tables` are the states of a run from the empty table. */
  ghost predicate IsRun(events: seq<Event>, tables: seq<Table>) {
    && |tables| == |events| + 1 && tables[0] == []
    && forall k | 0 <= k < |events| :: Step(tables[k], events[k], tables[k + 1])
  }

  ghost function Committed(events: seq<Event>): set<Message> {
    set k | 0 <= k < |events| && events[k].Commit? :: events[k].m
  }

  /** Messages with one identity have one content throughout the run. */
  ghost predicate OneContent(events: seq<Event>) {
    forall a, b | a in Committed(events) && b in Committed(events) :: a.id == b.id ==> a == b
  }

  lemma CommittedOneMore(events: seq<Event>, n: nat)
    requires n < |events|
    ensures Committed(events[..n + 1]) == Committed(events[..n]) + (if events[n].Commit? then {events[n].m} else {})
    ensures Committed(events[..n + 1]) <= Committed(events)
  {}

  /** Every reachable table is reconciled and holds exactly the messages that arrived. */
  lemma {:induction false} ReachableIsReconciled(events: seq<Event>, tables: seq<Table>, n: nat)
    requires IsRun(events, tables) && OneContent(events) && n <= |events|
    ensures Reconciled(tables[n]) && Stored(tables[n]) == Committed(events[..n])
    ensures n < |events| && events[n].Commit? ==> Consistent(tables[n], events[n].m)
  {
    if n > 0 {
      ReachableIsReconciled(events, tables, n - 1);
      CommittedOneMore(events, n - 1);
      var t, u := tables[n - 1], tables[n];
      assert Step(t, events[n - 1], u);
      match events[n - 1]
      case Commit(m, now) =>
        UpsertKeepsReconciled(t, m, now, u);
        var order, root :| UpsertWith(t, m, now, u, order, root);
        UpsertFacts(t, m, now, u, order, root);
      case Sweep(now, allowed) =>
        SweepKeepsReconciled(t, now, allowed);
      case Idle =>
    }
    if n < |events| && events[n].Commit? {
      CommittedOneMore(events, n);
      forall i: nat | i < |tables[n]| && tables[n][i].message.id == events[n].m.id
        ensures tables[n][i].message == events[n].m
      {
        assert tables[n][i].message in Stored(tables[n]);
      }
    }
  }

  // ------------------------------------------------ statuses, read off the messages

  predicate HasEnded(m: Message, now: int) {
    m.expiresAt != None && m.expiresAt.value <= now
  }

  /** The status of a row that has been reconciled at time `now`. */
  predicate StatusFits(row: Row, now: int) {
    && (row.status == Cancelled <==> row.message.kind == Cancel)
    && (row.status == Expired <==> row.message.kind != Cancel && HasEnded(row.message, now))
    && (row.status == Active <==> row.message.kind != Cancel && !HasEnded(row.message, now) && row.current)
    && (row.status == Updated <==> row.message.kind != Cancel && !HasEnded(row.message, now) && !row.current)
  }

  /** An upsert gives every row of the message's lifecycle the status of its clock, and
      leaves every other row as it was. */
  lemma UpsertStatuses(t: Table, m: Message, now: int, u: Table, i: nat)
    requires Reconciled(t) && Consistent(t, m) && UpsertStep(t, m, now, u) && i < |u|
    ensures if Connected(GraphOf(u), m.id, u[i].message.id) then StatusFits(u[i], now) else i < |t| && u[i] == t[i]
  {
    var order, root :| UpsertWith(t, m, now, u, order, root);
    UpsertFacts(t, m, now, u, order, root);
    if Connected(GraphOf(u), m.id, u[i].message.id) {
      TouchedRow(t, m, now, u, order, root, i);
    } else {
      UntouchedRow(t, m, now, u, order, root, i);
    }
  }

  /** A sweep expires exactly the current active rows whose expiry has come, when it may. */
  lemma SweepStatuses(t: Table, now: int, allowed: bool, i: nat)
    requires i < |t|
    ensures |Swept(t, now, allowed)| == |t|
    ensures Swept(t, now, allowed)[i] ==
            if allowed && t[i].current && t[i].status == Active && HasEnded(t[i].message, now)
            then t[i].(status := Expired) else t[i]
  {}

  // ----------------------------------------------------------------- confluence

  ghost predicate SamePrevious(t: Table, a: Option<nat>, u: Table, b: Option<nat>) {
    match (a, b)
    case (None, None) => true
    case (Some(i), Some(j)) => i < |t| && j < |u| && t[i].message == u[j].message
    case _ => false
  }

  ghost function At(t: Table, order: seq<nat>): seq<Message>
    requires Rows(t, order)
  {
    seq(|order|, k requires 0 <= k < |order| => t[order[k]].message)
  }

  lemma AtIsListing(t: Table, x: Identity, order: seq<nat>)
    requires Lifecycle(t, x, order)
    ensures Chronological(At(t, order))
    ensures forall m :: m in At(t, order) <==> m in Stored(t) && Connected(GraphOf(t), x, m.id)
  {
    forall m ensures m in At(t, order) <==> m in Stored(t) && Connected(GraphOf(t), x, m.id) {
      if m in At(t, order) {
        var k :| 0 <= k < |order| && At(t, order)[k] == m;
        assert order[k] in order;
      }
      if m in Stored(t) && Connected(GraphOf(t), x, m.id) {
        var i: nat :| i < |t| && t[i].message == m;
        var k :| 0 <= k < |order| && order[k] == i;
        assert At(t, order)[k] == m;
      }
    }
  }

  lemma SameListing(t: Table, u: Table, x: Identity, order: seq<nat>, order': seq<nat>)
    requires Stored(t) == Stored(u) && Lifecycle(t, x, order) && Lifecycle(u, x, order')
    ensures At(t, order) == At(u, order') && Chronological(At(t, order))
  {
    AtIsListing(t, x, order);
    AtIsListing(u, x, order');
    ChronologicalListingIsUnique(At(t, order), At(u, order'));
  }

  lemma OnePosition(listing: seq<Message>, p: nat, q: nat)
    requires Chronological(listing) && p < |listing| && q < |listing| && listing[p] == listing[q]
    ensures p == q
  {}

  /** Two reconciled tables with the same messages number every lifecycle alike. */
  lemma SameMessagesSameNumbering(t: Table, u: Table, i: nat, j: nat)
    requires Reconciled(t) && Reconciled(u) && Stored(t) == Stored(u)
    requires i < |t| && j < |u| && t[i].message == u[j].message
    ensures t[i].revision == u[j].revision && t[i].current == u[j].current
    ensures SamePrevious(t, t[i].previous, u, u[j].previous)
  {
    var order, p, _ := SharedLifecycle(t, i, i);
    var order', p', _ := SharedLifecycle(u, j, j);
    SamePlace(t, u, t[i].message.id, order, order', p, p');
  }

  lemma SamePlace(t: Table, u: Table, x: Identity, order: seq<nat>, order': seq<nat>, p: nat, p': nat)
    requires Stored(t) == Stored(u) && Lifecycle(t, x, order) && Lifecycle(u, x, order')
    requires p < |order| && p' < |order'| && NumberedAt(t, order, p) && NumberedAt(u, order', p')
    requires t[order[p]].message == u[order'[p']].message
    ensures t[order[p]].revision == u[order'[p']].revision && t[order[p]].current == u[order'[p']].current
    ensures SamePrevious(t, t[order[p]].previous, u, u[order'[p']].previous)
  {
    SameListing(t, u, x, order, order');
    assert At(t, order)[p] == At(u, order')[p'];
    OnePosition(At(t, order), p, p');
    if p > 0 { assert At(t, order)[p - 1] == At(u, order')[p - 1]; }
  }

  /** They also group messages into lifecycles alike. */
  lemma SameMessagesSameGrouping(t: Table, u: Table, i: nat, i2: nat, j: nat, j2: nat)
    requires Reconciled(t) && Reconciled(u) && Stored(t) == Stored(u)
    requires i < |t| && i2 < |t| && j < |u| && j2 < |u|
    requires t[i].message == u[j].message && t[i2].message == u[j2].message
    ensures t[i].key == t[i2].key <==> u[j].key == u[j2].key
  {
    SharedKeyIffConnected(t, i, i2);
    SharedKeyIffConnected(u, j, j2);
  }

  // ------------------------------------------------------- canonical key names

  /** The row's key is the canonical identity of its component. */
  ghost predicate NamedAt(t: Table, i: nat)
    requires i < |t|
  {
    t[i].key.CapKey? && Canonical(Stored(t), t[i].message.id, t[i].key.root)
  }

  ghost predicate Named(t: Table) {
    forall i: nat | i < |t| :: NamedAt(t, i)
  }

  /** A time that `m` reports for a root candidate of row `i`'s lifecycle ranks before the
      name the lifecycle has. */
  ghost predicate Overtakes(ms: set<Message>, m: Message, x: Identity, r: Identity, y: Identity, time: int) {
    && Candidate(ArrowsOf(ms), x, y) && time in Hints(m, y)
    && !RankLeq(EarliestOf(ms + {m}, r), r, Some(time), y)
  }

  /** Row `i` is outside the lifecycle of `m`, yet `m` reports an overtaking time for it. */
  ghost predicate Disturbs(t: Table, m: Message, i: nat)
    requires i < |t| && t[i].key.CapKey?
  {
    && !Connected(ArrowsOf(Stored(t) + {m}), m.id, t[i].message.id)
    && exists y, time :: Overtakes(Stored(t), m, t[i].message.id, t[i].key.root, y, time)
  }

  lemma TimesOneMore(ms: set<Message>, m: Message, y: Identity)
    ensures Times(ms + {m}, y) == Times(ms, y) + TimesFrom(m, y)
  {
    forall v ensures v in Times(ms + {m}, y) <==> v in Times(ms, y) || v in TimesFrom(m, y) {
      if v in Times(ms, y) {
        var n :| n in ms && v in TimesFrom(n, y);
        assert n in ms + {m};
      }
      if v in TimesFrom(m, y) { assert m in ms + {m}; }
    }
  }

  /** Outside the hub's component, new arrows change neither roots nor candidates. */
  lemma UntouchedCandidates(es: Arrows, more: Arrows, hub: Identity, x: Identity)
    requires es <= more && !Connected(more, hub, x)
    requires forall e :: e in more - es ==> e.0 == hub
    ensures forall y :: Candidate(es, x, y) <==> Candidate(more, x, y)
  {
    ConnectedToSelf(more, hub);
    UntouchedComponent(es, more, hub, x);
    if Connected(more, x, hub) { ConnectedIsEquivalence(more, x, hub); }
    forall r ensures Root(es, x, r) <==> Root(more, x, r) {
      assert r == hub ==> !Connected(more, x, r);
    }
  }

  /** With the new message known, `y` keeps its old time or takes a hint of the message. */
  lemma NewEarliest(ms: set<Message>, m: Message, y: Identity)
    requires y != m.id
    ensures EarliestOf(ms + {m}, y) == EarliestOf(ms, y) ||
            (EarliestOf(ms + {m}, y).Some? && EarliestOf(ms + {m}, y).value in Hints(m, y))
    ensures RankLeq(EarliestOf(ms + {m}, y), y, EarliestOf(ms, y), y)
    ensures forall time :: time in Hints(m, y) ==> RankLeq(EarliestOf(ms + {m}, y), y, Some(time), y)
  {
    TimesOneMore(ms, m, y);
    StringOrderIsTotal(y.identifier, y.identifier);
    var before, after := EarliestOf(ms, y), EarliestOf(ms + {m}, y);
    assert before.Some? ==> before.value in Times(ms + {m}, y);
    assert after.Some? ==> after.value in Times(ms, y) || after.value in Hints(m, y);
  }

  /** A lifecycle without the incoming message keeps a canonical name exactly when no
      reported time overtakes it. */
  lemma NameSurvives(ms: set<Message>, m: Message, x: Identity, r: Identity)
    requires Canonical(ms, x, r) && !Connected(ArrowsOf(ms + {m}), m.id, x)
    ensures Canonical(ms + {m}, x, r) <==> !exists y, time :: Overtakes(ms, m, x, r, y, time)
  {
    var es, more := ArrowsOf(ms), ArrowsOf(ms + {m});
    ConnectedToSelf(more, m.id);
    UntouchedCandidates(es, more, m.id, x);
    UntouchedComponent(es, more, m.id, x);
    if Connected(more, x, m.id) { ConnectedIsEquivalence(more, x, m.id); }
    NewEarliest(ms, m, r);
    forall y | Candidate(es, x, y)
      ensures RankLeq(EarliestOf(ms + {m}, r), r, EarliestOf(ms + {m}, y), y) <==>
              !exists time :: Overtakes(ms, m, x, r, y, time)
    {
      NameAgainst(ms, m, x, r, y);
    }
  }

  lemma NameAgainst(ms: set<Message>, m: Message, x: Identity, r: Identity, y: Identity)
    requires Canonical(ms, x, r) && Candidate(ArrowsOf(ms), x, y) && y != m.id && r != m.id
    ensures RankLeq(EarliestOf(ms + {m}, r), r, EarliestOf(ms + {m}, y), y) <==>
            !exists time :: Overtakes(ms, m, x, r, y, time)
  {
    var name, old', new' := EarliestOf(ms + {m}, r), EarliestOf(ms, y), EarliestOf(ms + {m}, y);
    NewEarliest(ms, m, r);
    NewEarliest(ms, m, y);
    RankOrderIsTransitive(name, r, EarliestOf(ms, r), r, old', y);
    if new' != old' {
      assert new'.value in Hints(m, y);
      assert !RankLeq(name, r, new', y) ==> Overtakes(ms, m, x, r, y, new'.value);
    }
    if RankLeq(name, r, new', y) {
      forall time | time in Hints(m, y) ensures RankLeq(name, r, Some(time), y) {
        RankOrderIsTransitive(name, r, new', y, Some(time), y);
      }
    }
  }

  /** An upsert leaves a canonical name on every row of the lifecycle it rewrites,
      whatever name was there before. */
  lemma RewrittenRowIsNamed(t: Table, m: Message, now: int, u: Table, i: nat)
    requires UniqueIds(t) && Consistent(t, m) && UpsertStep(t, m, now, u)
    requires i < |u| && Connected(GraphOf(u), m.id, u[i].message.id)
    ensures NamedAt(u, i)
  {
    var order, root :| UpsertWith(t, m, now, u, order, root);
    UpsertFacts(t, m, now, u, order, root);
    TouchedRow(t, m, now, u, order, root, i);
    CanonicalOfComponent(Stored(u), m.id, u[i].message.id, root);
  }

  /** A row that had a canonical name keeps one over an upsert exactly when the incoming
      message does not disturb its lifecycle. */
  lemma NameOfRowSurvives(t: Table, m: Message, now: int, u: Table, i: nat)
    requires Reconciled(t) && Consistent(t, m) && UpsertStep(t, m, now, u)
    requires i < |t| && NamedAt(t, i)
    ensures i < |u| && (NamedAt(u, i) <==> !Disturbs(t, m, i))
  {
    var order, root :| UpsertWith(t, m, now, u, order, root);
    UpsertFacts(t, m, now, u, order, root);
    InsertedFacts(t, m, now);
    assert u[i].message == Inserted(t, m, now)[i].message;
    if Connected(GraphOf(u), m.id, u[i].message.id) {
      RewrittenRowIsNamed(t, m, now, u, i);
    } else {
      UntouchedRow(t, m, now, u, order, root, i);
      NameSurvives(Stored(t), m, t[i].message.id, t[i].key.root);
    }
  }

  /** So all names stay canonical exactly when the message disturbs no other lifecycle. */
  lemma NamingSurvivesUpsert(t: Table, m: Message, now: int, u: Table)
    requires Reconciled(t) && Named(t) && Consistent(t, m) && UpsertStep(t, m, now, u)
    requires forall i: nat | i < |t| :: t[i].key.CapKey?
    ensures Named(u) <==> forall i: nat | i < |t| :: !Disturbs(t, m, i)
  {
    var order, root :| UpsertWith(t, m, now, u, order, root);
    UpsertFacts(t, m, now, u, order, root);
    forall i: nat | i < |t| ensures NamedAt(u, i) <==> !Disturbs(t, m, i) {
      assert NamedAt(t, i);
      NameOfRowSurvives(t, m, now, u, i);
    }
    forall i: nat | i < |u| && i >= |t| ensures NamedAt(u, i) {
      if Connected(GraphOf(u), m.id, u[i].message.id) {
        RewrittenRowIsNamed(t, m, now, u, i);
      } else {
        UntouchedRow(t, m, now, u, order, root, i);
      }
    }
  }

  /** Every reference stays within the message's own sender. */
  predicate SameSender(m: Message) {
    forall x :: x in References(m) ==> x.sender == m.id.sender
  }

  lemma SameSenderNeverDisturbs(t: Table, m: Message, i: nat)
    requires SameSender(m) && i < |t| && t[i].key.CapKey?
    ensures !Disturbs(t, m, i)
  {
    var ms, x := Stored(t), t[i].message.id;
    var more := ArrowsOf(ms + {m});
    forall y, time | Overtakes(ms, m, x, t[i].key.root, y, time) ensures Connected(more, m.id, x) {
      HintedIsReferenced(m, y, time);
      assert m in ms + {m} && y in Links(m);
      ConnectedToSelf(more, m.id);
      ConnectedStep(more, m.id, m.id, y);
      ConnectedGrows(ArrowsOf(ms), more, x, y);
      ConnectedIsEquivalence(more, x, y);
      ConnectedIsTransitive(more, m.id, y, x);
    }
  }

  // ---------------------------------------------------------- the run theorems

  ghost predicate StatusesAt(t: Table, now: int) {
    forall i: nat | i < |t| :: StatusFits(t[i], now)
  }

  predicate AtClock(e: Event, now: int) {
    match e case Commit(_, clock) => clock == now case Sweep(clock, _) => clock == now case Idle => true
  }

  lemma StepKeepsStatuses(t: Table, e: Event, u: Table, now: int)
    requires Reconciled(t) && StatusesAt(t, now) && Step(t, e, u) && AtClock(e, now)
    requires e.Commit? ==> Consistent(t, e.m)
    ensures StatusesAt(u, now)
  {
    if e.Commit? {
      forall i: nat | i < |u| ensures StatusFits(u[i], now) {
        UpsertStatuses(t, e.m, e.now, u, i);
        assert i < |t| ==> StatusFits(t[i], now);
      }
    }
  }

  lemma StepOfRunKeepsStatuses(events: seq<Event>, tables: seq<Table>, now: int, k: nat)
    requires IsRun(events, tables) && OneContent(events) && k < |events|
    requires StatusesAt(tables[k], now) && AtClock(events[k], now)
    ensures StatusesAt(tables[k + 1], now)
  {
    ReachableIsReconciled(events, tables, k);
    assert Step(tables[k], events[k], tables[k + 1]);
    StepKeepsStatuses(tables[k], events[k], tables[k + 1], now);
  }

  /** With one clock reading, every reachable status is the reconciled one. */
  lemma {:induction false} ReachableStatuses(events: seq<Event>, tables: seq<Table>, now: int, n: nat)
    requires IsRun(events, tables) && OneContent(events) && n <= |events|
    requires forall e :: e in events ==> AtClock(e, now)
    ensures StatusesAt(tables[n], now)
  {
    if n > 0 {
      ReachableStatuses(events, tables, now, n - 1);
      assert events[n - 1] in events;
      StepOfRunKeepsStatuses(events, tables, now, n - 1);
    }
  }

  ghost predicate CancellationsAt(t: Table) {
    forall i: nat | i < |t| :: t[i].status == Cancelled <==> t[i].message.kind == Cancel
  }

  lemma StepKeepsCancellations(t: Table, e: Event, u: Table)
    requires Reconciled(t) && CancellationsAt(t) && Step(t, e, u)
    requires e.Commit? ==> Consistent(t, e.m)
    ensures CancellationsAt(u)
  {
    if e.Commit? {
      var order, root :| UpsertWith(t, e.m, e.now, u, order, root);
      forall i: nat | i < |u| ensures u[i].status == Cancelled <==> u[i].message.kind == Cancel {
        if Connected(GraphOf(u), e.m.id, u[i].message.id) {
          TouchedRow(t, e.m, e.now, u, order, root, i);
        } else {
          UntouchedRow(t, e.m, e.now, u, order, root, i);
        }
      }
    }
  }

  lemma StepOfRunKeepsCancellations(events: seq<Event>, tables: seq<Table>, k: nat)
    requires IsRun(events, tables) && OneContent(events) && k < |events| && CancellationsAt(tables[k])
    ensures CancellationsAt(tables[k + 1])
  {
    ReachableIsReconciled(events, tables, k);
    assert Step(tables[k], events[k], tables[k + 1]);
    StepKeepsCancellations(tables[k], events[k], tables[k + 1]);
  }

  /** In every reachable table, whatever the clocks, exactly the cancel messages are
      cancelled; a status that a message merely declares does not survive reconciliation. */
  lemma {:induction false} CancelledIffCancelMessage(events: seq<Event>, tables: seq<Table>, n: nat)
    requires IsRun(events, tables) && OneContent(events) && n <= |events|
    ensures CancellationsAt(tables[n])
  {
    if n > 0 {
      CancelledIffCancelMessage(events, tables, n - 1);
      StepOfRunKeepsCancellations(events, tables, n - 1);
    }
  }

  lemma SweepKeepsNames(t: Table, now: int, allowed: bool)
    requires Reconciled(t) && Named(t)
    ensures Named(Swept(t, now, allowed))
  {
    var u := Swept(t, now, allowed);
    SweepKeepsReconciled(t, now, allowed);
    forall i: nat | i < |u| ensures NamedAt(u, i) { assert NamedAt(t, i); }
  }

  /** With references inside one sender, every reachable key is canonical. */
  lemma {:induction false} ReachableNames(events: seq<Event>, tables: seq<Table>, n: nat)
    requires IsRun(events, tables) && OneContent(events) && n <= |events|
    requires forall m :: m in Committed(events) ==> SameSender(m)
    ensures Named(tables[n])
  {
    if n > 0 {
      ReachableNames(events, tables, n - 1);
      ReachableIsReconciled(events, tables, n - 1);
      var t, u := tables[n - 1], tables[n];
      assert Step(t, events[n - 1], u);
      match events[n - 1]
      case Idle =>
      case Sweep(now, allowed) => SweepKeepsNames(t, now, allowed);
      case Commit(m, now) =>
        assert m in Committed(events);
        forall i: nat | i < |t| ensures t[i].key.CapKey? && !Disturbs(t, m, i) {
          assert KeyedAt(t, i);
          SameSenderNeverDisturbs(t, m, i);
        }
        NamingSurvivesUpsert(t, m, now, u);
    }
  }

  ghost predicate LeftAlone(t: Table, e: Event, i: nat) {
    e.Commit? && i < |t| && t[i].key.CapKey? ==> !Disturbs(t, e.m, i)
  }

  ghost predicate NeverDisturbed(events: seq<Event>, tables: seq<Table>, a: nat, b: nat, i: nat)
    requires b <= |events| <= |tables|
  {
    forall k: nat | a <= k < b :: LeftAlone(tables[k], events[k], i)
  }

  lemma StepKeepsName(t: Table, e: Event, u: Table, i: nat)
    requires Reconciled(t) && Step(t, e, u) && (e.Commit? ==> Consistent(t, e.m))
    requires i < |t| && NamedAt(t, i) && LeftAlone(t, e, i)
    ensures i < |u| && NamedAt(u, i)
  {
    match e
    case Idle =>
    case Sweep(now, allowed) => SweepKeepsReconciled(t, now, allowed);
    case Commit(m, now) => NameOfRowSurvives(t, m, now, u, i);
  }

  lemma StepOfRunKeepsName(events: seq<Event>, tables: seq<Table>, b: nat, i: nat)
    requires IsRun(events, tables) && OneContent(events) && 0 < b <= |events|
    requires i < |tables[b - 1]| && NamedAt(tables[b - 1], i) && LeftAlone(tables[b - 1], events[b - 1], i)
    ensures i < |tables[b]| && NamedAt(tables[b], i)
  {
    ReachableIsReconciled(events, tables, b - 1);
    var t, e, u := tables[b - 1], events[b - 1], tables[b];
    assert Step(t, e, u);
    StepKeepsName(t, e, u, i);
  }

  /** Over runs: a row that has a canonical name keeps one until its own lifecycle is
      disturbed, whatever happens to other lifecycles and whatever names they carry. */
  lemma {:induction false} NameLastsUntilDisturbed(events: seq<Event>, tables: seq<Table>, a: nat, b: nat, i: nat)
    requires IsRun(events, tables) && OneContent(events) && a <= b <= |events|
    requires i < |tables[a]| && NamedAt(tables[a], i) && NeverDisturbed(events, tables, a, b, i)
    ensures i < |tables[b]| && NamedAt(tables[b], i)
    decreases b - a
  {
    if a < b {
      NameLastsUntilDisturbed(events, tables, a, b - 1, i);
      var k: nat := b - 1;
      assert LeftAlone(tables[k], events[k], i);
      StepOfRunKeepsName(events, tables, b, i);
    }
  }

  /** Confluence of structure: any two runs that commit the same messages, in any order,
      with any replays, sweeps and clock readings, end with the same lifecycles, revisions,
      previous links (as messages) and current flags. */
  lemma SameCommitsSameStructure(events: seq<Event>, tables: seq<Table>, events': seq<Event>, tables': seq<Table>,
                                  i: nat, i2: nat, j: nat, j2: nat)
    requires IsRun(events, tables) && IsRun(events', tables') && OneContent(events) && OneContent(events')
    requires Committed(events) == Committed(events')
    requires i < |tables[|events|]| && i2 < |tables[|events|]| && j < |tables'[|events'|]| && j2 < |tables'[|events'|]|
    requires tables[|events|][i].message == tables'[|events'|][j].message
    requires tables[|events|][i2].message == tables'[|events'|][j2].message
    ensures var t, u := tables[|events|], tables'[|events'|];
            Stored(t) == Stored(u) &&
            t[i].revision == u[j].revision && t[i].current == u[j].current &&
            SamePrevious(t, t[i].previous, u, u[j].previous) &&
            (t[i].key == t[i2].key <==> u[j].key == u[j2].key)
  {
    ReachableIsReconciled(events, tables, |events|);
    ReachableIsReconciled(events', tables', |events'|);
    assert events[..|events|] == events && events'[..|events'|] == events';
    SameMessagesSameNumbering(tables[|events|], tables'[|events'|], i, j);
    SameMessagesSameGrouping(tables[|events|], tables'[|events'|], i, i2, j, j2);
  }

  /** Confluence of names and statuses: with references inside one sender the keys
      agree too, and with one clock reading so do the statuses. */
  lemma SameCommitsSameRows(events: seq<Event>, tables: seq<Table>, events': seq<Event>, tables': seq<Table>,
                             now: int, i: nat, j: nat)
    requires IsRun(events, tables) && IsRun(events', tables') && OneContent(events) && OneContent(events')
    requires Committed(events) == Committed(events')
    requires i < |tables[|events|]| && j < |tables'[|events'|]|
    requires tables[|events|][i].message == tables'[|events'|][j].message
    ensures (forall m :: m in Committed(events) ==> SameSender(m)) ==>
              tables[|events|][i].key == tables'[|events'|][j].key
    ensures (forall e :: e in events || e in events' ==> AtClock(e, now)) ==>
              tables[|events|][i].status == tables'[|events'|][j].status
  {
    var t, u := tables[|events|], tables'[|events'|];
    SameCommitsSameStructure(events, tables, events', tables', i, i, j, j);
    if forall m :: m in Committed(events) ==> SameSender(m) {
      ReachableNames(events, tables, |events|);
      ReachableNames(events', tables', |events'|);
      assert NamedAt(t, i) && NamedAt(u, j);
      ConnectedToSelf(GraphOf(t), t[i].message.id);
      CanonicalIsUnique(Stored(t), t[i].message.id, t[i].key.root, t[i].message.id, u[j].key.root);
    }
    if forall e :: e in events || e in events' ==> AtClock(e, now) {
      ReachableStatuses(events, tables, now, |events|);
      ReachableStatuses(events', tables', now, |events'|);
    }
  }

  /** The rows of `t` are the first rows of `u`, with the same messages. */
  ghost predicate Continues(t: Table, u: Table) {
    |t| <= |u| && forall i: nat | i < |t| :: u[i].message == t[i].message
  }

  lemma ContinuedGraph(t: Table, u: Table)
    requires Continues(t, u)
    ensures GraphOf(t) <= GraphOf(u)
  {}

  /** Rows of one lifecycle stay in one lifecycle. */
  lemma StaysTogether(t: Table, u: Table, i: nat, c: nat)
    requires Reconciled(t) && Reconciled(u) && Continues(t, u)
    requires i < |t| && c < |t| && t[c].key == t[i].key
    ensures u[c].key == u[i].key
  {
    ContinuedGraph(t, u);
    SharedKeyIffConnected(t, i, c);
    ConnectedGrows(GraphOf(t), GraphOf(u), t[i].message.id, t[c].message.id);
    SharedKeyIffConnected(u, i, c);
  }

  lemma CurrentIsLast(u: Table, d: nat, c: nat)
    requires Reconciled(u) && d < |u| && c < |u| && u[d].current && u[d].key == u[c].key
    ensures c == d || Before(u[c].message, u[d].message)
  {
    var order, p, q := SharedLifecycle(u, d, c);
    assert p == |order| - 1;
    if q < p { assert Before(u[order[q]].message, u[order[p]].message); }
  }

  /** The current message of a lifecycle only moves forward in (sent time, identity). */
  lemma CurrentMovesForward(t: Table, u: Table, i: nat, c: nat, d: nat)
    requires Reconciled(t) && Reconciled(u) && Continues(t, u)
    requires i < |t| && c < |t| && t[c].current && t[c].key == t[i].key
    requires d < |u| && u[d].current && u[d].key == u[i].key
    ensures c == d || Before(t[c].message, u[d].message)
  {
    StaysTogether(t, u, i, c);
    CurrentIsLast(u, d, c);
  }

  /** Along a run, rows keep their places and messages. */
  lemma {:induction false} RowsStay(events: seq<Event>, tables: seq<Table>, a: nat, b: nat)
    requires IsRun(events, tables) && OneContent(events) && a <= b <= |events|
    ensures Continues(tables[a], tables[b])
    decreases b - a
  {
    if a < b {
      RowsStay(events, tables, a, b - 1);
      ReachableIsReconciled(events, tables, b - 1);
      var t, u := tables[b - 1], tables[b];
      assert Step(t, events[b - 1], u);
      if events[b - 1].Commit? {
        var m, now := events[b - 1].m, events[b - 1].now;
        var order, root :| UpsertWith(t, m, now, u, order, root);
        UpsertFacts(t, m, now, u, order, root);
        InsertedFacts(t, m, now);
      }
      assert Continues(t, u);
    }
  }

  /** The same, between any two moments of a run. */
  lemma CurrentOnlyMovesForward(events: seq<Event>, tables: seq<Table>, a: nat, b: nat, i: nat, c: nat, d: nat)
    requires IsRun(events, tables) && OneContent(events) && a <= b <= |events|
    requires i < |tables[a]| && c < |tables[a]| && tables[a][c].current && tables[a][c].key == tables[a][i].key
    requires d < |tables[b]| && i < |tables[b]| && tables[b][d].current && tables[b][d].key == tables[b][i].key
    ensures c == d || Before(tables[a][c].message, tables[b][d].message)
  {
    ReachableIsReconciled(events, tables, a);
    ReachableIsReconciled(events, tables, b);
    RowsStay(events, tables, a, b);
    CurrentMovesForward(tables[a], tables[b], i, c, d);
  }

  lemma SomeRowIsCurrent(t: Table, i: nat) returns (c: nat)
    requires Reconciled(t) && i < |t|
    ensures c < |t| && t[c].current && t[c].key == t[i].key
  {
    ConnectedToSelf(GraphOf(t), t[i].message.id);
    assert InLifecycle(t, i);
    var order :| Lifecycle(t, t[i].message.id, order);
    assert i in order;
    c := order[|order| - 1];
    assert NumberedAt(t, order, |order| - 1) && c in order;
    SharedKeyIffConnected(t, i, c);
  }

  /** A row that has been superseded is never current again. */
  lemma SupersededStays(events: seq<Event>, tables: seq<Table>, a: nat, b: nat, i: nat)
    requires IsRun(events, tables) && OneContent(events) && a <= b <= |events|
    requires i < |tables[a]| && !tables[a][i].current
    ensures i < |tables[b]| && !tables[b][i].current
  {
    ReachableIsReconciled(events, tables, a);
    RowsStay(events, tables, a, b);
    if tables[b][i].current {
      var c := SomeRowIsCurrent(tables[a], i);
      CurrentOnlyMovesForward(events, tables, a, b, i, c, i);
      CurrentIsLast(tables[a], c, i);
      BeforeIsStrictOrder(tables[a][i].message, tables[a][c].message, tables[a][i].message);
      assert false;
    }
  }
}
