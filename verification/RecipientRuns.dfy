/** Superseding never loses a recipient, over whole runs of publications and deliveries. */
module RecipientRuns {
  import opened CapMessages
  import opened Recipients
  import P = DeliveryProtocol

  // --------------------------------------------------------------- one insertion

  /** The unique index of the queue. */
  ghost predicate UniqueSlots(t: Queue) {
    forall i, j | 0 <= i < j < |t| :: t[i].slot != t[j].slot
  }

  predicate FreshFor(t: Queue, a: Published, cs: seq<Candidate>, row: Row) {
    exists c :: c in cs && row == Row(SlotOf(a, c), P.Pending, c.zone) && !Taken(t, row.slot)
  }

  ghost predicate InsertedOk(t: Queue, a: Published, cs: seq<Candidate>, u: Queue) {
    && (forall i | |t| <= i < |u| :: FreshFor(t, a, cs, u[i]))
    && (forall c | c in cs :: Taken(u, SlotOf(a, c)))
    && (UniqueSlots(t) ==> UniqueSlots(u))
  }

  lemma {:induction false} InsertedEffect(t: Queue, a: Published, cs: seq<Candidate>, n: nat)
    requires n <= |cs|
    ensures |t| <= |Inserted(t, a, cs, n)| && Inserted(t, a, cs, n)[..|t|] == t
    ensures InsertedOk(t, a, cs[..n], Inserted(t, a, cs, n))
  {
    if n > 0 {
      InsertedEffect(t, a, cs, n - 1);
      var v, u := Inserted(t, a, cs, n - 1), Inserted(t, a, cs, n);
      var c := cs[n - 1];
      assert cs[..n] == cs[..n - 1] + [c];
      assert v <= u;
      forall i | |t| <= i < |u| ensures FreshFor(t, a, cs[..n], u[i]) {
        if i < |v| {
          assert FreshFor(t, a, cs[..n - 1], v[i]);
          var d :| d in cs[..n - 1] && v[i] == Row(SlotOf(a, d), P.Pending, d.zone) && !Taken(t, v[i].slot);
          assert d in cs[..n];
        } else {
          assert c in cs[..n];
          TakenGrows(t, v, SlotOf(a, c));
        }
      }
      forall d | d in cs[..n] ensures Taken(u, SlotOf(a, d)) {
        if d in cs[..n - 1] {
          TakenGrows(v, u, SlotOf(a, d));
        } else if !Taken(v, SlotOf(a, c)) {
          assert u[|v|].slot == SlotOf(a, c);
        }
      }
    }
  }

  lemma TakenGrows(t: Queue, u: Queue, slot: Slot)
    requires t <= u
    ensures Taken(t, slot) ==> Taken(u, slot)
  {}

  // ------------------------------------------------------------------------ runs

  datatype Event =
    | Publish(alert: Published, enabled: set<P.Channel>, matched: seq<Candidate>)
    | Decide(row: nat, status: P.QueueStatus)

  /** Deliveries decide open rows; a subscriber acknowledges a sent one. */
  predicate MayDecide(before: Row, status: P.QueueStatus) {
    || (IsOpen(before) && status != P.Pending && status != P.Acknowledged)
    || (before.status == P.Sent && status == P.Acknowledged)
  }

  ghost predicate Step(t: Queue, e: Event, u: Queue) {
    match e
    case Publish(a, enabled, matched) => u == Enqueued(t, a, enabled, matched)
    case Decide(i, status) => i < |t| && MayDecide(t[i], status) && u == t[i := t[i].(status := status)]
  }

  ghost predicate IsRun(queues: seq<Queue>, events: seq<Event>) {
    && |queues| == |events| + 1 && queues[0] == []
    && forall n | 0 <= n < |events| :: Step(queues[n], events[n], queues[n + 1])
  }

  predicate Publishes(e: Event, key: AlertKey) {
    e.Publish? && e.alert.current && e.alert.key == key
  }

  /** Publications of `key` come in the order of their revisions. */
  ghost predicate InOrder(events: seq<Event>, key: AlertKey) {
    forall m, n | 0 <= m <= n < |events| && Publishes(events[m], key) && Publishes(events[n], key) ::
      events[m].alert.revision <= events[n].alert.revision
  }

  ghost predicate NoneNewer(t: Queue, key: AlertKey, revision: nat) {
    forall i | 0 <= i < |t| && t[i].slot.key == key :: t[i].slot.revision <= revision
  }

  predicate NotBehind(t: Queue, key: AlertKey, i: int, j: int)
    requires 0 <= i < |t| && 0 <= j < |t|
  {
    t[i].slot.key == key && t[j].slot.key == key && IsOpen(t[i]) ==> t[j].slot.revision <= t[i].slot.revision
  }

  /** Open rows of an alert are all of its newest queued revision. */
  ghost predicate OpenIsNewest(t: Queue, key: AlertKey) {
    forall i, j | 0 <= i < |t| && 0 <= j < |t| :: NotBehind(t, key, i, j)
  }

  /** Everything an enqueue of the current revision does, read off the new queue. */
  ghost predicate EnqueueEffect(t: Queue, a: Published, cs: seq<Candidate>, u: Queue) {
    && |t| <= |u|
    && (forall i | 0 <= i < |t| :: u[i] == if Stale(t[i], a) then t[i].(status := P.Skipped) else t[i])
    && (forall i | |t| <= i < |u| :: FreshFor(t, a, cs, u[i]))
    && (forall c | c in cs :: Taken(u, SlotOf(a, c)))
  }

  lemma EnqueuedEffect(t: Queue, a: Published, enabled: set<P.Channel>, matched: seq<Candidate>)
    requires a.current
    ensures EnqueueEffect(t, a, Candidates(t, a, enabled, matched), Enqueued(t, a, enabled, matched))
    ensures UniqueSlots(t) ==> UniqueSlots(Enqueued(t, a, enabled, matched))
  {
    var cs := Candidates(t, a, enabled, matched);
    var v, u := Inserted(t, a, cs, |cs|), Enqueued(t, a, enabled, matched);
    InsertedEffect(t, a, cs, |cs|);
    assert cs[..|cs|] == cs;
    forall i | |t| <= i < |u| ensures u[i] == v[i] {
      assert FreshFor(t, a, cs, v[i]);
    }
    forall c | c in cs ensures Taken(u, SlotOf(a, c)) {
      var i :| 0 <= i < |v| && v[i].slot == SlotOf(a, c);
      assert u[i].slot == SlotOf(a, c);
    }
    forall i | 0 <= i < |t| ensures v[i] == t[i] {
      assert v[i] == v[..|t|][i];
    }
  }

  lemma StepKeepsSlotsUnique(t: Queue, e: Event, u: Queue)
    requires Step(t, e, u) && UniqueSlots(t)
    ensures UniqueSlots(u)
  {
    if e.Publish? && e.alert.current { EnqueuedEffect(t, e.alert, e.enabled, e.matched); }
  }

  lemma {:induction false} SlotsStayUnique(queues: seq<Queue>, events: seq<Event>, n: nat)
    requires IsRun(queues, events) && n <= |events|
    ensures UniqueSlots(queues[n])
  {
    if n > 0 {
      SlotsStayUnique(queues, events, n - 1);
      assert Step(queues[n - 1], events[n - 1], queues[n]);
      StepKeepsSlotsUnique(queues[n - 1], events[n - 1], queues[n]);
    }
  }

  lemma StepKeepsOpenNewest(t: Queue, e: Event, u: Queue, key: AlertKey)
    requires Step(t, e, u) && OpenIsNewest(t, key)
    requires Publishes(e, key) ==> NoneNewer(t, key, e.alert.revision)
    ensures OpenIsNewest(u, key)
  {
    if e.Decide? {
      forall i, j | 0 <= i < |u| && 0 <= j < |u| ensures NotBehind(u, key, i, j) { assert NotBehind(t, key, i, j); }
    } else if e.alert.current {
      EnqueueKeepsOpenNewest(t, e.alert, Candidates(t, e.alert, e.enabled, e.matched), u, key) by {
        EnqueuedEffect(t, e.alert, e.enabled, e.matched);
      }
    }
  }

  lemma EnqueueKeepsOpenNewest(t: Queue, a: Published, cs: seq<Candidate>, u: Queue, key: AlertKey)
    requires EnqueueEffect(t, a, cs, u) && OpenIsNewest(t, key)
    requires a.key == key ==> NoneNewer(t, key, a.revision)
    ensures OpenIsNewest(u, key)
  {
    forall i | |t| <= i < |u| ensures u[i].slot.key == a.key && u[i].slot.revision == a.revision {
      assert FreshFor(t, a, cs, u[i]);
    }
    forall i, j | 0 <= i < |u| && 0 <= j < |u| ensures NotBehind(u, key, i, j) {
      if i < |t| && j < |t| { assert NotBehind(t, key, i, j); }
    }
  }

  lemma EnqueueKeepsNoneNewer(t: Queue, a: Published, cs: seq<Candidate>, u: Queue, key: AlertKey, revision: nat)
    requires EnqueueEffect(t, a, cs, u) && NoneNewer(t, key, revision) && (a.key == key ==> a.revision <= revision)
    ensures NoneNewer(u, key, revision)
  {}

  /** A publication finds no row of a newer revision. */
  lemma {:induction false} RowsArePublished(queues: seq<Queue>, events: seq<Event>, key: AlertKey, n: nat,
                                            revision: nat)
    requires IsRun(queues, events) && n <= |events|
    requires forall m | 0 <= m < n && Publishes(events[m], key) :: events[m].alert.revision <= revision
    ensures NoneNewer(queues[n], key, revision)
  {
    if n > 0 {
      RowsArePublished(queues, events, key, n - 1, revision);
      var t, e := queues[n - 1], events[n - 1];
      assert Step(t, e, queues[n]);
      if e.Publish? && e.alert.current {
        EnqueuedEffect(t, e.alert, e.enabled, e.matched);
        EnqueueKeepsNoneNewer(t, e.alert, Candidates(t, e.alert, e.enabled, e.matched), queues[n], key, revision);
      }
    }
  }

  lemma {:induction false} OpenStaysNewest(queues: seq<Queue>, events: seq<Event>, key: AlertKey, n: nat)
    requires IsRun(queues, events) && InOrder(events, key) && n <= |events|
    ensures OpenIsNewest(queues[n], key)
  {
    if n > 0 {
      OpenStaysNewest(queues, events, key, n - 1);
      var t, e := queues[n - 1], events[n - 1];
      assert Step(t, e, queues[n]);
      if Publishes(e, key) { RowsArePublished(queues, events, key, n - 1, e.alert.revision); }
      StepKeepsOpenNewest(t, e, queues[n], key);
    }
  }

  /** What publications in order find in the queue. */
  ghost predicate Ready(t: Queue, e: Event, key: AlertKey) {
    OpenIsNewest(t, key) && (Publishes(e, key) ==> NoneNewer(t, key, e.alert.revision))
  }

  lemma InOrderIsReady(queues: seq<Queue>, events: seq<Event>, key: AlertKey, n: nat)
    requires IsRun(queues, events) && InOrder(events, key) && n < |events|
    ensures Ready(queues[n], events[n], key)
  {
    OpenStaysNewest(queues, events, key, n);
    if Publishes(events[n], key) { RowsArePublished(queues, events, key, n, events[n].alert.revision); }
  }

  // -------------------------------------------------------------- the main results

  ghost predicate NoneOlderOpen(t: Queue, key: AlertKey, revision: nat) {
    forall i | 0 <= i < |t| && t[i].slot.key == key && IsOpen(t[i]) :: t[i].slot.revision >= revision
  }

  lemma EnqueueLeavesNoneOlder(t: Queue, a: Published, cs: seq<Candidate>, u: Queue, key: AlertKey, revision: nat)
    requires EnqueueEffect(t, a, cs, u)
    requires if a.key == key then revision <= a.revision else NoneOlderOpen(t, key, revision)
    ensures NoneOlderOpen(u, key, revision)
  {}

  /** After a publication in order no pending or failed row of an older revision is left,
      and none comes back, whatever deliveries and publications follow. */
  lemma {:induction false} NoStaleRowSurvives(queues: seq<Queue>, events: seq<Event>, key: AlertKey, m: nat, n: nat)
    requires IsRun(queues, events) && InOrder(events, key) && m < n <= |events| && Publishes(events[m], key)
    ensures NoneOlderOpen(queues[n], key, events[m].alert.revision)
  {
    var revision := events[m].alert.revision;
    var t, e, u := queues[n - 1], events[n - 1], queues[n];
    assert Step(t, e, u);
    if m < n - 1 { NoStaleRowSurvives(queues, events, key, m, n - 1); }
    if e.Publish? && e.alert.current {
      EnqueuedEffect(t, e.alert, e.enabled, e.matched);
      EnqueueLeavesNoneOlder(t, e.alert, Candidates(t, e.alert, e.enabled, e.matched), u, key, revision);
    }
  }

  /** Whom a publication may tell: the matched pairs for a first alert, otherwise the prior
      recipients, and in both cases only on channels that are switched on. */
  ghost predicate MayTell(t: Queue, a: Published, enabled: set<P.Channel>, matched: seq<Candidate>, who: Who) {
    && who.channel in enabled
    && if ActionOf(a.kind, a.status) == Warning then exists c :: c in matched && c.who == who
       else Recipient(t, a.key, who)
  }

  /** Some row of `who` is open or sent, and the publication does not supersede it. */
  ghost predicate Spared(t: Queue, a: Published, who: Who) {
    exists i: nat :: i < |t| && About(t[i], a.key, who) && Reached(t[i]) && !Stale(t[i], a)
  }

  ghost predicate HasOtherRow(t: Queue, key: AlertKey, who: Who, i: nat) {
    exists j: nat :: j < |t| && j != i && About(t[j], key, who) && Reached(t[j])
  }

  /** The event does not give up on `who`: a publication supersedes no last row of `who`
      without telling `who` again, and a decision leaves `who` with a row. */
  ghost predicate Gentle(t: Queue, e: Event, key: AlertKey, who: Who) {
    match e
    case Publish(a, enabled, matched) =>
      a.current && a.key == key ==> Spared(t, a, who) || MayTell(t, a, enabled, matched, who)
    case Decide(i, status) =>
      i < |t| && About(t[i], key, who) && (status == P.DeadLetter || status == P.Skipped) ==>
        HasOtherRow(t, key, who, i)
  }

  ghost predicate ExactlyOne(t: Queue, slot: Slot) {
    Taken(t, slot) && forall i, j | 0 <= i < j < |t| :: t[i].slot != slot || t[j].slot != slot
  }

  ghost predicate AllGentle(queues: seq<Queue>, events: seq<Event>, key: AlertKey, who: Who, m: nat, n: nat)
    requires n <= |events| <= |queues|
  {
    forall k | m <= k < n :: Gentle(queues[k], events[k], key, who)
  }

  predicate NamesLatestZone(t: Queue, key: AlertKey, who: Who, zone: nat) {
    exists j: nat :: j < |t| && Latest(t, key, j) && t[j].slot.who == who && zone == t[j].zone
  }

  /** The event is a follow-up, and the channel of `who` is on. */
  predicate FollowsUp(e: Event, who: Who) {
    e.Publish? && ActionOf(e.alert.kind, e.alert.status) != Warning && who.channel in e.enabled
  }

  /** A follow-up reaches every recipient whose channel is on, and keeps it a recipient;
      a row it creates is pending and names the zone of the recipient's latest row. */
  lemma FollowUpReaches(t: Queue, e: Event, u: Queue, key: AlertKey, who: Who)
    requires Step(t, e, u) && Publishes(e, key) && Recipient(t, key, who) && FollowsUp(e, who) && Ready(t, e, key)
    ensures Taken(u, Slot(who, key, e.alert.revision, ActionOf(e.alert.kind, e.alert.status)))
    ensures Recipient(u, key, who)
    ensures forall i: nat | |t| <= i < |u| && u[i].slot.who == who ::
              u[i].status == P.Pending && NamesLatestZone(t, key, who, u[i].zone)
  {
    var a := e.alert;
    var cs := Candidates(t, a, e.enabled, e.matched);
    EnqueuedEffect(t, a, e.enabled, e.matched);
    var best := RecipientHasLatest(t, key, who);
    var c := Candidate(who, t[best].zone);
    assert c in cs;
    forall i: nat | |t| <= i < |u| && u[i].slot.who == who
      ensures u[i].status == P.Pending && NamesLatestZone(t, key, who, u[i].zone)
    {
      assert FreshFor(t, a, cs, u[i]);
    }
    ToldIsRecipient(t, a, cs, u, who, best, c);
  }

  /** Nobody else is told: every new row is of the published revision and action, pending,
      for somebody the publication may tell; and no row is added twice. */
  lemma NobodyElseIsTold(t: Queue, a: Published, enabled: set<P.Channel>, matched: seq<Candidate>, i: nat)
    requires a.current && |t| <= i < |Enqueued(t, a, enabled, matched)|
    ensures var row := Enqueued(t, a, enabled, matched)[i];
            row.slot == Slot(row.slot.who, a.key, a.revision, ActionOf(a.kind, a.status)) && row.status == P.Pending &&
            MayTell(t, a, enabled, matched, row.slot.who) && !Taken(t, row.slot)
  {
    var u := Enqueued(t, a, enabled, matched);
    EnqueuedEffect(t, a, enabled, matched);
    assert FreshFor(t, a, Candidates(t, a, enabled, matched), u[i]);
  }

  lemma ToldIsRecipient(t: Queue, a: Published, cs: seq<Candidate>, u: Queue, who: Who, best: nat, c: Candidate)
    requires EnqueueEffect(t, a, cs, u) && OpenIsNewest(t, a.key) && NoneNewer(t, a.key, a.revision)
    requires best < |t| && About(t[best], a.key, who) && Reached(t[best]) && c.who == who && c in cs
    ensures Recipient(u, a.key, who)
  {
    var slot := SlotOf(a, c);
    var i :| 0 <= i < |u| && u[i].slot == slot;
    if i < |t| {
      assert NotBehind(t, a.key, best, i);
      assert About(u[best], a.key, who) && Reached(u[best]);
    } else {
      assert FreshFor(t, a, cs, u[i]);
      assert About(u[i], a.key, who) && Reached(u[i]);
    }
  }

  lemma ToldIsCandidate(t: Queue, a: Published, enabled: set<P.Channel>, matched: seq<Candidate>, who: Who)
    returns (c: Candidate)
    requires MayTell(t, a, enabled, matched, who)
    ensures c in Candidates(t, a, enabled, matched) && c.who == who
  {
    if ActionOf(a.kind, a.status) == Warning {
      c :| c in matched && c.who == who;
    } else {
      var best := RecipientHasLatest(t, a.key, who);
      c := Candidate(who, t[best].zone);
    }
  }

  lemma KeptIsSpared(t: Queue, a: Published, cs: seq<Candidate>, u: Queue, who: Who, i: nat)
    requires EnqueueEffect(t, a, cs, u) && i < |t| && About(u[i], a.key, who) && Reached(u[i])
    ensures Spared(t, a, who)
  {
    assert About(t[i], a.key, who) && Reached(t[i]) && !Stale(t[i], a);
  }

  lemma SparedIsKept(t: Queue, a: Published, cs: seq<Candidate>, u: Queue, who: Who)
    requires EnqueueEffect(t, a, cs, u) && Spared(t, a, who)
    ensures Recipient(u, a.key, who)
  {
    var i: nat :| i < |t| && About(t[i], a.key, who) && Reached(t[i]) && !Stale(t[i], a);
    assert About(u[i], a.key, who) && Reached(u[i]);
  }

  lemma PublicationKeepsRecipientIff(t: Queue, e: Event, u: Queue, who: Who)
    requires Step(t, e, u) && e.Publish? && e.alert.current
    requires Recipient(t, e.alert.key, who) && Ready(t, e, e.alert.key)
    ensures Recipient(u, e.alert.key, who) <==>
            Spared(t, e.alert, who) || MayTell(t, e.alert, e.enabled, e.matched, who)
  {
    var a, cs := e.alert, Candidates(t, e.alert, e.enabled, e.matched);
    EnqueuedEffect(t, a, e.enabled, e.matched);
    if Spared(t, a, who) {
      SparedIsKept(t, a, cs, u, who);
    } else if MayTell(t, a, e.enabled, e.matched, who) {
      var c := ToldIsCandidate(t, a, e.enabled, e.matched, who);
      var best: nat :| best < |t| && About(t[best], a.key, who) && Reached(t[best]);
      ToldIsRecipient(t, a, cs, u, who, best, c);
    } else if Recipient(u, a.key, who) {
      var i: nat :| i < |u| && About(u[i], a.key, who) && Reached(u[i]);
      if i < |t| { KeptIsSpared(t, a, cs, u, who, i); } else { NobodyElseIsTold(t, a, e.enabled, e.matched, i); }
    }
  }

  lemma DecisionKeepsRecipientIff(t: Queue, e: Event, u: Queue, key: AlertKey, who: Who)
    requires Step(t, e, u) && e.Decide? && Recipient(t, key, who)
    ensures Recipient(u, key, who) <==> Gentle(t, e, key, who)
  {
    if HasOtherRow(t, key, who, e.row) {
      var j: nat :| j < |t| && j != e.row && About(t[j], key, who) && Reached(t[j]);
      assert About(u[j], key, who) && Reached(u[j]);
    } else {
      var i: nat :| i < |t| && About(t[i], key, who) && Reached(t[i]);
      assert i == e.row && About(u[i], key, who);
      forall j: nat | j < |u| && j != i ensures u[j] == t[j] {}
    }
  }

  /** Exactly which events keep a recipient. */
  lemma StepKeepsRecipientIff(t: Queue, e: Event, u: Queue, key: AlertKey, who: Who)
    requires Step(t, e, u) && Recipient(t, key, who) && Ready(t, e, key)
    ensures Recipient(u, key, who) <==> Gentle(t, e, key, who)
  {
    if Publishes(e, key) {
      PublicationKeepsRecipientIff(t, e, u, who);
    } else if e.Decide? {
      DecisionKeepsRecipientIff(t, e, u, key, who);
    } else {
      var i: nat :| i < |t| && About(t[i], key, who) && Reached(t[i]);
      if e.alert.current { EnqueuedEffect(t, e.alert, e.enabled, e.matched); }
      assert About(u[i], key, who) && Reached(u[i]);
    }
  }

  lemma {:induction false} RecipientIsKept(queues: seq<Queue>, events: seq<Event>, key: AlertKey, who: Who, m: nat,
                                           n: nat)
    requires IsRun(queues, events) && InOrder(events, key) && m <= n <= |events| && Recipient(queues[m], key, who)
    requires AllGentle(queues, events, key, who, m, n)
    ensures Recipient(queues[n], key, who)
    decreases n - m
  {
    if m < n {
      RecipientIsKept(queues, events, key, who, m, n - 1);
      assert Step(queues[n - 1], events[n - 1], queues[n]) && Gentle(queues[n - 1], events[n - 1], key, who);
      InOrderIsReady(queues, events, key, n - 1);
      StepKeepsRecipientIff(queues[n - 1], events[n - 1], queues[n], key, who);
    }
  }

  /** Superseding never loses a recipient: as long as nothing gives up on `who`, whoever was
      told about the alert at some point has exactly one row for every later follow-up. */
  lemma NoRecipientIsLost(queues: seq<Queue>, events: seq<Event>, key: AlertKey, who: Who, m: nat, n: nat)
    requires IsRun(queues, events) && InOrder(events, key) && m <= n < |events| && Recipient(queues[m], key, who)
    requires AllGentle(queues, events, key, who, m, n)
    requires Publishes(events[n], key) && FollowsUp(events[n], who)
    ensures var a := events[n].alert;
            var slot := Slot(who, key, a.revision, ActionOf(a.kind, a.status));
            ExactlyOne(queues[n + 1], slot)
  {
    var t, e, u := queues[n], events[n], queues[n + 1];
    RecipientIsKept(queues, events, key, who, m, n);
    InOrderIsReady(queues, events, key, n);
    assert Step(t, e, u);
    FollowUpReaches(t, e, u, key, who);
    SlotsStayUnique(queues, events, n + 1);
  }

  // ----------------------------------------- an enqueue, read off the columns of its rows

  /** The row tells `who` about the alert, and has not been given up or skipped. */
  predicate Tells(row: Row, key: AlertKey, who: Who) {
    && row.slot.key == key && row.slot.who == who
    && (row.status == P.Pending || row.status == P.Failed || row.status == P.Sent || row.status == P.Acknowledged)
  }

  ghost predicate WasTold(t: Queue, key: AlertKey, who: Who) {
    exists i :: 0 <= i < |t| && Tells(t[i], key, who)
  }

  ghost predicate HasRow(t: Queue, who: Who, a: Published, action: LifecycleAction) {
    exists i :: 0 <= i < |t| && t[i].slot == Slot(who, a.key, a.revision, action)
  }

  predicate IsCancellation(a: Published) {
    a.kind == Cancel || a.status == Cancelled
  }

  lemma ToldIsReached(t: Queue, a: Published, enabled: set<P.Channel>, matched: seq<Candidate>, who: Who)
    requires a.current && WasTold(t, a.key, who) && who.channel in enabled && ActionOf(a.kind, a.status) != Warning
    ensures HasRow(Enqueued(t, a, enabled, matched), who, a, ActionOf(a.kind, a.status))
  {
    var i: nat :| i < |t| && Tells(t[i], a.key, who);
    assert About(t[i], a.key, who) && Reached(t[i]);
    EnqueuedEffect(t, a, enabled, matched);
    var best := RecipientHasLatest(t, a.key, who);
    assert Candidate(who, t[best].zone) in Candidates(t, a, enabled, matched);
  }

  /** A current expiry, cancellation or update leaves a row of its own action for everybody
      who was told before and whose channel is on. */
  lemma FollowUpsReachThoseTold(t: Queue, a: Published, enabled: set<P.Channel>, matched: seq<Candidate>, who: Who)
    requires a.current && WasTold(t, a.key, who) && who.channel in enabled
    ensures a.status == Expired ==> HasRow(Enqueued(t, a, enabled, matched), who, a, Expiry)
    ensures a.status != Expired && IsCancellation(a) ==>
              HasRow(Enqueued(t, a, enabled, matched), who, a, Cancellation)
    ensures a.status != Expired && !IsCancellation(a) && a.kind == Update ==>
              HasRow(Enqueued(t, a, enabled, matched), who, a, Revised)
  {
    if a.status == Expired || IsCancellation(a) || a.kind == Update { ToldIsReached(t, a, enabled, matched, who); }
  }

  /** A current first alert leaves a warning for every matched pair whose channel is on. */
  lemma WarningsReachMatched(t: Queue, a: Published, enabled: set<P.Channel>, matched: seq<Candidate>, c: Candidate)
    requires a.current && a.status != Expired && !IsCancellation(a) && a.kind == Alert
    requires c in matched && c.who.channel in enabled
    ensures HasRow(Enqueued(t, a, enabled, matched), c.who, a, Warning)
  {
    EnqueuedEffect(t, a, enabled, matched);
    assert c in Candidates(t, a, enabled, matched) && SlotOf(a, c) == Slot(c.who, a.key, a.revision, Warning);
  }

  /** Row `i` is the one of `who` about the alert with the highest revision, and of those the
      last one. */
  ghost predicate IsLatestOf(t: Queue, key: AlertKey, who: Who, i: nat) {
    i < |t| && Tells(t[i], key, who) &&
    forall j: nat | j < |t| && Tells(t[j], key, who) ::
      t[j].slot.revision < t[i].slot.revision || (t[j].slot.revision == t[i].slot.revision && j <= i)
  }

  lemma LatestIsLatest(t: Queue, key: AlertKey, i: nat)
    requires i < |t| && Latest(t, key, i)
    ensures IsLatestOf(t, key, t[i].slot.who, i)
  {
    var who := t[i].slot.who;
    forall j: nat | j < |t| && Tells(t[j], key, who)
      ensures t[j].slot.revision < t[i].slot.revision || (t[j].slot.revision == t[i].slot.revision && j <= i)
    {
      assert About(t[j], key, who) && Reached(t[j]) && NotLater(t, i, j);
    }
  }

  /** A row that an enqueue adds is pending, in a slot nobody had, on a channel that is on.  A
      warning goes to a matched pair with its zone; anything else to somebody told before,
      with the zone of the latest row. */
  lemma AddedRow(t: Queue, a: Published, enabled: set<P.Channel>, matched: seq<Candidate>, i: nat)
    requires a.current && |t| <= i < |Enqueued(t, a, enabled, matched)|
    ensures var row := Enqueued(t, a, enabled, matched)[i];
            var who := row.slot.who;
            && row.slot.key == a.key && row.slot.revision == a.revision && row.status == P.Pending
            && who.channel in enabled && (forall j | 0 <= j < |t| :: t[j].slot != row.slot)
            && if a.status != Expired && !IsCancellation(a) && a.kind == Alert
               then row.slot.action == Warning && Candidate(who, row.zone) in matched
               else row.slot.action != Warning && exists j: nat :: IsLatestOf(t, a.key, who, j) && row.zone == t[j].zone
  {
    var u, cs := Enqueued(t, a, enabled, matched), Candidates(t, a, enabled, matched);
    EnqueuedEffect(t, a, enabled, matched);
    assert FreshFor(t, a, cs, u[i]);
    var c :| c in cs && u[i] == Row(SlotOf(a, c), P.Pending, c.zone) && !Taken(t, u[i].slot);
    if ActionOf(a.kind, a.status) != Warning {
      var j: nat :| j < |t| && Latest(t, a.key, j) && c == Candidate(t[j].slot.who, t[j].zone) &&
                    c.who.channel in enabled;
      LatestIsLatest(t, a.key, j);
    } else {
      assert c == Candidate(c.who, c.zone);
    }
  }

  /** An enqueue skips the pending and failed rows of older revisions of its alert, and
      leaves every other row as it is; a revision that is not current changes nothing. */
  lemma OldRows(t: Queue, a: Published, enabled: set<P.Channel>, matched: seq<Candidate>, i: nat)
    requires i < |t|
    ensures !a.current ==> Enqueued(t, a, enabled, matched) == t
    ensures a.current ==>
              var open := t[i].status == P.Pending || t[i].status == P.Failed;
              var older := t[i].slot.key == a.key && t[i].slot.revision < a.revision;
              i < |Enqueued(t, a, enabled, matched)| &&
              Enqueued(t, a, enabled, matched)[i] == if open && older then t[i].(status := P.Skipped) else t[i]
  {
    if a.current { EnqueuedEffect(t, a, enabled, matched); }
  }
}
