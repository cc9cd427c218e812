/** Safety of the delivery protocol over whole runs. */
module DeliverySafety {
  import opened Optional
  import opened DeliveryProtocol
  import opened DeliveryInvariants

  // ----------------------------------------------------------------------- runs

  /** All workers rest, nothing has been sent, and the rows are in order. */
  ghost predicate Init(s: State) {
    && s.sends == []
    && (forall w | w in s.workers :: s.workers[w] == RESTING)
    && (forall d | d in s.rows :: RowOk(s, s.rows[d]))
  }

  ghost predicate IsRun(states: seq<State>, actions: seq<Action>) {
    && |states| == |actions| + 1 && Init(states[0])
    && forall k | 0 <= k < |actions| :: Next(states[k], actions[k], states[k + 1])
  }

  lemma {:induction false} ReachableInv(states: seq<State>, actions: seq<Action>, n: nat)
    requires IsRun(states, actions) && n <= |actions|
    ensures Inv(states[n])
  {
    if n == 0 {
      forall w | w in states[0].workers ensures EachOk(states[0], w) {}
    } else {
      ReachableInv(states, actions, n - 1);
      assert Next(states[n - 1], actions[n - 1], states[n]);
      NextKeepsInv(states[n - 1], actions[n - 1], states[n]);
    }
  }

  // ------------------------------------------------- the alert stays deliverable

  /** The row is still the claim's, and an official alert is current with its source live. */
  predicate StillDeliverable(s: State, c: Claim) {
    && c.row in s.rows && s.rows[c.row].attempts == c.attempt
    && (s.rows[c.row].status == Pending || s.rows[c.row].status == Failed)
    && (c.kind == Official ==>
          c.alert in s.alerts && s.alerts[c.alert].current && s.alerts[c.alert].source == c.source &&
          c.source in s.settings && s.settings[c.source].enabled && s.settings[c.source].active)
  }

  lemma LateIsDeliverable(s: State, w: Worker)
    requires Inv(s) && w in s.workers && s.workers[w].phase.Delivering? && Late(s.workers[w].phase.stage)
    ensures StillDeliverable(s, s.workers[w].phase.claim)
  {
    assert EachOk(s, w);
    assert RowOk(s, s.rows[s.workers[w].phase.claim.row]);
  }

  /** From just before a send until its outcome is written, in every reachable state, the
      row is still the worker's, and an official alert is current with its source live. */
  lemma DeliverableAroundSend(states: seq<State>, actions: seq<Action>, n: nat, w: Worker)
    requires IsRun(states, actions) && n <= |actions| && w in states[n].workers
    requires states[n].workers[w].phase.Delivering? && Late(states[n].workers[w].phase.stage)
    ensures StillDeliverable(states[n], states[n].workers[w].phase.claim)
  {
    ReachableInv(states, actions, n);
    LateIsDeliverable(states[n], w);
  }

  /** The outcome of a finished delivery is always the one written: a successful send
      becomes a sent row, and the guards of the outcome statements never fail. */
  lemma OutcomeIsRecorded(states: seq<State>, actions: seq<Action>, n: nat, w: Worker)
    requires IsRun(states, actions) && n < |actions| && actions[n] == Record(w)
    ensures w in states[n].workers && states[n].workers[w].phase.Delivering? && states[n].workers[w].phase.stage.Done?
    ensures var c, outcome := states[n].workers[w].phase.claim, states[n].workers[w].phase.stage.outcome;
            c.row in states[n].rows &&
            states[n + 1].rows == states[n].rows[c.row := Written(states[n].rows[c.row], outcome, states[n].clock)] &&
            (states[n + 1].rows[c.row].status == Sent <==> outcome == Success)
  {
    assert Next(states[n], actions[n], states[n + 1]);
    DeliverableAroundSend(states, actions, n, w);
  }

  /** A delivering worker never skips what could be sent: whenever it gives up a row, the
      alert is superseded or its source is not live at that moment. */
  lemma SkippedWasUndeliverable(states: seq<State>, actions: seq<Action>, n: nat, w: Worker)
    requires IsRun(states, actions) && n < |actions| && actions[n] == FinishSkip(w)
    ensures w in states[n].workers && HasClaim(states[n].workers[w].phase)
    ensures var s, c := states[n], states[n].workers[w].phase.claim;
            c.kind == Official &&
            (!(c.alert in s.alerts && s.alerts[c.alert].current) ||
             !(c.source in s.settings && s.settings[c.source].enabled && s.settings[c.source].active))
  {
    assert Next(states[n], actions[n], states[n + 1]);
    ReachableInv(states, actions, n);
    assert EachOk(states[n], w);
  }

  /** A row enters a run undecided, with no attempt used up, and due at once if it is official. */
  lemma RowsStartPending(s: State, a: Action, s': State, d: RowId)
    requires Next(s, a, s') && d !in s.rows && d in s'.rows
    ensures var row := s'.rows[d];
            row.status == Pending && row.attempts == 0 &&
            (row.kind == Official ==>
               row.nextAttempt == Some(s.clock) && row.alert in s'.alerts && s'.alerts[row.alert].source == row.source)
  {}

  // -------------------------------------------------------------------- fencing

  lemma SameRowIsTransitive(a: Delivery, b: Delivery, c: Delivery)
    requires SameRow(a, b) && SameRow(b, c)
    ensures SameRow(a, c)
  {}

  predicate KeepsRow(s: State, s': State, d: RowId)
    requires d in s.rows
  {
    d in s'.rows && SameRow(s.rows[d], s'.rows[d])
  }

  lemma OutsideKeepsRow(s: State, a: Action, s': State, d: RowId)
    requires OutsideNext(s, a, s') && d in s.rows
    ensures KeepsRow(s, s', d)
  {}

  lemma OutcomeKeepsRow(s: State, a: Action, w: Worker, ws: WorkerState, s': State, d: RowId)
    requires OutcomeNext(s, a, w, ws, s') && d in s.rows
    ensures KeepsRow(s, s', d)
  {}

  lemma WritingKeepsRow(s: State, a: Action, s': State, d: RowId)
    requires a.CommitWriting? && Next(s, a, s') && d in s.rows
    ensures KeepsRow(s, s', d)
  {}

  /** Only four kinds of worker action write to the queue. */
  predicate WritesRows(a: Action) {
    a.ClaimRow? || a.FinishSkip? || a.Record? || a.CommitWriting?
  }

  predicate FromOutside(a: Action) {
    a.Tick? || a.EnqueueOther? || a.Acknowledge?
  }

  lemma OtherActionsLeaveRows(s: State, a: Action, s': State)
    requires Next(s, a, s') && !FromOutside(a) && !WritesRows(a)
    ensures s'.rows == s.rows && (s'.sends == s.sends || a.Send?)
  {}

  /** No action removes a row, changes what it is about, or takes back an attempt. */
  lemma NextKeepsRow(s: State, a: Action, s': State, d: RowId)
    requires Next(s, a, s') && d in s.rows
    ensures KeepsRow(s, s', d)
  {
    if FromOutside(a) {
      OutsideKeepsRow(s, a, s', d);
    } else if a.CommitWriting? {
      WritingKeepsRow(s, a, s', d);
    } else if a.FinishSkip? || a.Record? {
      OutcomeKeepsRow(s, a, a.w, s.workers[a.w], s', d);
    } else if a.ClaimRow? {
      assert ClaimNext(s, a.w, a.row, s');
    } else {
      OtherActionsLeaveRows(s, a, s');
    }
  }

  lemma {:induction false} RowsPersist(states: seq<State>, actions: seq<Action>, m: nat, n: nat, d: RowId)
    requires IsRun(states, actions) && m <= n <= |actions| && d in states[m].rows
    ensures d in states[n].rows && SameRow(states[m].rows[d], states[n].rows[d])
    decreases n - m
  {
    if m < n {
      RowsPersist(states, actions, m, n - 1, d);
      assert Next(states[n - 1], actions[n - 1], states[n]);
      NextKeepsRow(states[n - 1], actions[n - 1], states[n], d);
      SameRowIsTransitive(states[m].rows[d], states[n - 1].rows[d], states[n].rows[d]);
    }
  }

  /** Two claims of one row never get the same attempt number. */
  lemma AttemptsAreNeverReused(states: seq<State>, actions: seq<Action>, m: nat, n: nat, d: RowId)
    requires IsRun(states, actions) && m < n < |actions|
    requires actions[m].ClaimRow? && actions[m].row == d && actions[n].ClaimRow? && actions[n].row == d
    ensures d in states[m].rows && d in states[n].rows
    ensures ClaimOf(d, states[m].rows[d]).attempt < ClaimOf(d, states[n].rows[d]).attempt
  {
    assert Next(states[m], actions[m], states[m + 1]);
    RowsPersist(states, actions, m + 1, n, d);
  }

  /** Every attempt of every row is sent at most once, and there are at most five. */
  lemma OneSendPerAttempt(states: seq<State>, actions: seq<Action>, n: nat)
    requires IsRun(states, actions) && n <= |actions|
    ensures NoDuplicates(states[n].sends)
    ensures forall d | d in states[n].rows :: states[n].rows[d].attempts <= 5
    ensures forall e | e in states[n].sends :: e.0 in states[n].rows && e.1 <= states[n].rows[e.0].attempts
  {
    ReachableInv(states, actions, n);
    forall d | d in states[n].rows ensures states[n].rows[d].attempts <= 5 {
      assert RowOk(states[n], states[n].rows[d]);
    }
    forall e | e in states[n].sends ensures e.0 in states[n].rows && e.1 <= states[n].rows[e.0].attempts {
      assert SentWasClaimed(states[n], e);
    }
  }

  /** A claim that its row has outgrown. */
  predicate Overtaken(s: State, ws: WorkerState) {
    HasClaim(ws.phase) && ws.phase.claim.row in s.rows && ws.phase.claim.attempt < s.rows[ws.phase.claim.row].attempts
  }

  lemma OvertakenStep(s: State, a: Action, s': State, w: Worker)
    requires Next(s, a, s') && !FromOutside(a) && a.w == w && w in s.workers
    requires WorkerOk(s, s.workers[w]) && Overtaken(s, s.workers[w])
    ensures s'.rows == s.rows && s'.sends == s.sends
  {
    var ws := s.workers[w];
    assert !ws.phase.Delivering? || !Late(ws.phase.stage);
    if !WritesRows(a) { OtherActionsLeaveRows(s, a, s'); }
  }

  /** A worker whose row has been claimed again can neither send nor change a row. */
  lemma OvertakenWorkerIsHarmless(states: seq<State>, actions: seq<Action>, n: nat, w: Worker)
    requires IsRun(states, actions) && n < |actions| && w in states[n].workers
    requires Overtaken(states[n], states[n].workers[w])
    requires !FromOutside(actions[n]) && actions[n].w == w
    ensures states[n + 1].rows == states[n].rows && states[n + 1].sends == states[n].sends
  {
    ReachableInv(states, actions, n);
    assert EachOk(states[n], w);
    assert Next(states[n], actions[n], states[n + 1]);
    OvertakenStep(states[n], actions[n], states[n + 1], w);
  }

  /** A decided row is never changed again, except by its subscriber's acknowledgement. */
  lemma DecidedRowIsFinal(s: State, a: Action, s': State, d: RowId)
    requires Inv(s) && Next(s, a, s') && d in s.rows && !Open(s.rows[d]) && !a.Acknowledge?
    ensures d in s'.rows && s'.rows[d] == s.rows[d]
  {
    if a.Record? { LateIsDeliverable(s, a.w); }
  }

  /** Skipped and dead-letter rows stay as they are; a sent row is at most acknowledged. */
  lemma {:induction false} DecidedRowStaysDecided(states: seq<State>, actions: seq<Action>, m: nat, n: nat, d: RowId)
    requires IsRun(states, actions) && m <= n <= |actions| && d in states[m].rows && !Open(states[m].rows[d])
    ensures d in states[n].rows
    ensures var before, after := states[m].rows[d], states[n].rows[d];
            after == before || (before.status == Sent && after == before.(status := Acknowledged))
    decreases n - m
  {
    if m < n {
      DecidedRowStaysDecided(states, actions, m, n - 1, d);
      assert Next(states[n - 1], actions[n - 1], states[n]);
      if !actions[n - 1].Acknowledge? {
        ReachableInv(states, actions, n - 1);
        DecidedRowIsFinal(states[n - 1], actions[n - 1], states[n], d);
      }
    }
  }
}
