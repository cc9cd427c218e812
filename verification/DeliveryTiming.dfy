/** When a queue row may be claimed again: not before its lease or its retry delay is over. */
module DeliveryTiming {
  import opened Optional
  import opened DeliveryProtocol
  import opened DeliveryInvariants
  import opened DeliverySafety

  /** The row cannot be claimed before time `t`. */
  predicate NotBefore(s: State, d: RowId, t: int) {
    d in s.rows && (Open(s.rows[d]) && s.rows[d].nextAttempt.Some? ==> s.rows[d].nextAttempt.value >= t)
  }

  /** A claim of the row, or the outcome of one of its deliveries. */
  predicate Concerns(s: State, a: Action, d: RowId) {
    || (a.ClaimRow? && a.row == d)
    || (a.Record? && a.w in s.workers && HasClaim(s.workers[a.w].phase) && s.workers[a.w].phase.claim.row == d)
  }

  lemma OutcomeKeepsNotBefore(s: State, a: Action, s': State, d: RowId, t: int)
    requires Next(s, a, s') && NotBefore(s, d, t) && !Concerns(s, a, d) && (a.FinishSkip? || a.Record?)
    ensures NotBefore(s', d, t)
  {}

  lemma StepKeepsNotBefore(s: State, a: Action, s': State, d: RowId, t: int)
    requires Next(s, a, s') && NotBefore(s, d, t) && !Concerns(s, a, d)
    ensures NotBefore(s', d, t)
  {
    if FromOutside(a) {
      assert OutsideNext(s, a, s');
    } else if a.FinishSkip? || a.Record? {
      OutcomeKeepsNotBefore(s, a, s', d, t);
    } else if a.ClaimRow? {
      assert ClaimNext(s, a.w, a.row, s');
    } else if a.CommitWriting? {
      assert CommitWritingNext(s, a.w, s.workers[a.w], a.alerts, a.rows, s');
    } else {
      OtherActionsLeaveRows(s, a, s');
    }
  }

  ghost predicate Undisturbed(states: seq<State>, actions: seq<Action>, m: nat, n: nat, d: RowId)
    requires n <= |actions| <= |states|
  {
    forall k | m <= k < n :: !Concerns(states[k], actions[k], d)
  }

  lemma OneStep(states: seq<State>, actions: seq<Action>, k: nat, d: RowId)
    requires IsRun(states, actions) && 0 < k <= |actions| && Undisturbed(states, actions, k - 1, k, d)
    ensures Next(states[k - 1], actions[k - 1], states[k]) && !Concerns(states[k - 1], actions[k - 1], d)
  {
    assert Next(states[k - 1], actions[k - 1], states[k - 1 + 1]);
  }

  lemma {:induction false} NotBeforeLasts(states: seq<State>, actions: seq<Action>, m: nat, n: nat, d: RowId, t: int)
    requires IsRun(states, actions) && m <= n <= |actions| && NotBefore(states[m], d, t)
    requires Undisturbed(states, actions, m, n, d)
    ensures NotBefore(states[n], d, t)
    decreases n - m
  {
    if m < n {
      NotBeforeLasts(states, actions, m, n - 1, d, t);
      OneStep(states, actions, n, d);
      StepKeepsNotBefore(states[n - 1], actions[n - 1], states[n], d, t);
    }
  }

  lemma NoEarlyClaim(states: seq<State>, actions: seq<Action>, m: nat, n: nat, d: RowId, t: int)
    requires IsRun(states, actions) && m <= n < |actions| && NotBefore(states[m], d, t)
    requires Undisturbed(states, actions, m, n, d)
    requires actions[n].ClaimRow? && actions[n].row == d
    ensures states[n].clock >= t
  {
    NotBeforeLasts(states, actions, m, n, d, t);
    assert Next(states[n], actions[n], states[n + 1]);
  }

  /** A claimed row is not claimed again within its lease, unless its delivery has written
      an outcome: whatever other workers, writers and crashes do in between. */
  lemma LeaseIsRespected(states: seq<State>, actions: seq<Action>, m: nat, n: nat, d: RowId)
    requires IsRun(states, actions) && m < n < |actions| && Undisturbed(states, actions, m + 1, n, d)
    requires actions[m].ClaimRow? && actions[m].row == d && actions[n].ClaimRow? && actions[n].row == d
    ensures states[n].clock >= states[m].clock + 60
  {
    assert Next(states[m], actions[m], states[m + 1]);
    NoEarlyClaim(states, actions, m + 1, n, d, states[m].clock + DELIVERY_LEASE_SECONDS);
  }

  /** After a failed attempt that may be retried, the row is not claimed again before its
      delay is over: 30 seconds after the first attempt, and twice as long each time. */
  lemma RetryWaits(states: seq<State>, actions: seq<Action>, m: nat, n: nat, w: Worker)
    requires IsRun(states, actions) && m < n < |actions| && actions[m] == Record(w)
    requires w in states[m].workers && states[m].workers[w].phase.Delivering? &&
             states[m].workers[w].phase.stage == Done(Failure(true))
    requires var d := states[m].workers[w].phase.claim.row;
             Undisturbed(states, actions, m + 1, n, d) && actions[n].ClaimRow? && actions[n].row == d
    ensures var c := states[m].workers[w].phase.claim;
            1 <= c.attempt < 5 &&
            states[n].clock >= states[m].clock + match c.attempt case 1 => 30 case 2 => 60 case 3 => 120 case _ => 240
  {
    OutcomeIsRecorded(states, actions, m, w);
    DeliverableAroundSend(states, actions, m, w);
    ReachableInv(states, actions, m);
    assert EachOk(states[m], w);
    var c := states[m].workers[w].phase.claim;
    DeadLetterStays(states, actions, m, n, c.row);
    NoEarlyClaim(states, actions, m + 1, n, c.row, states[m].clock + RetryDelay(c.attempt));
    RetrySchedule();
  }

  lemma RetrySchedule()
    ensures RetryDelay(1) == 30 && RetryDelay(2) == 60 && RetryDelay(3) == 120 && RetryDelay(4) == 240
  {
    assert Power2(1) == 2 * Power2(0) && Power2(2) == 2 * Power2(1) && Power2(3) == 2 * Power2(2);
  }

  /** A row that is claimed later was not decided before. */
  lemma DeadLetterStays(states: seq<State>, actions: seq<Action>, m: nat, n: nat, d: RowId)
    requires IsRun(states, actions) && m < n < |actions| && d in states[m + 1].rows
    requires actions[n].ClaimRow? && actions[n].row == d
    ensures Open(states[m + 1].rows[d])
  {
    assert Next(states[n], actions[n], states[n + 1]);
    if !Open(states[m + 1].rows[d]) { DecidedRowStaysDecided(states, actions, m + 1, n, d); }
  }

  // ------------------------------------------------- outcomes, read off the columns

  /** The row after a delivery: sent, dead after a failure that is not to be retried or after
      the fifth attempt, and otherwise failed until its delay is over. */
  predicate HasOutcome(before: Delivery, after: Delivery, outcome: Outcome, clock: int) {
    match outcome
    case Success => after == before.(status := Sent, nextAttempt := None)
    case Failure(retryable) =>
      if !retryable || before.attempts == 5 then after == before.(status := DeadLetter, nextAttempt := None)
      else
        var delay := if before.attempts == 1 then 30 else if before.attempts == 2 then 60
                     else if before.attempts == 3 then 120 else 240;
        after == before.(status := Failed, nextAttempt := Some(clock + delay))
  }

  /** What every delivery writes at its end, and that it changes no other row. */
  lemma OutcomeOfRow(states: seq<State>, actions: seq<Action>, n: nat, w: Worker)
    requires IsRun(states, actions) && n < |actions| && actions[n] == Record(w)
    ensures w in states[n].workers && states[n].workers[w].phase.Delivering? && states[n].workers[w].phase.stage.Done?
    ensures var d, outcome := states[n].workers[w].phase.claim.row, states[n].workers[w].phase.stage.outcome;
            d in states[n].rows && 1 <= states[n].rows[d].attempts <= 5 && d in states[n + 1].rows &&
            HasOutcome(states[n].rows[d], states[n + 1].rows[d], outcome, states[n].clock) &&
            forall e | e in states[n].rows && e != d ::
              e in states[n + 1].rows && states[n + 1].rows[e] == states[n].rows[e]
  {
    OutcomeIsRecorded(states, actions, n, w);
    OneSendPerAttempt(states, actions, n);
    ReachableInv(states, actions, n);
    assert EachOk(states[n], w);
    DeliverableAroundSend(states, actions, n, w);
    RetrySchedule();
  }

  /** After a failure that is not to be retried the row is neither claimed nor sent again. */
  lemma NoRetryAfterFinalFailure(states: seq<State>, actions: seq<Action>, m: nat, n: nat, w: Worker)
    requires IsRun(states, actions) && m < n <= |actions| && actions[m] == Record(w)
    requires w in states[m].workers && states[m].workers[w].phase.Delivering? &&
             states[m].workers[w].phase.stage == Done(Failure(false))
    ensures var d := states[m].workers[w].phase.claim.row;
            d in states[n].rows && states[n].rows[d].status == DeadLetter &&
            (n < |actions| ==>
              !(actions[n].ClaimRow? && actions[n].row == d) &&
              forall e | e in states[n + 1].sends && e.0 == d :: e in states[n].sends)
  {
    var d := states[m].workers[w].phase.claim.row;
    OutcomeOfRow(states, actions, m, w);
    DecidedRowStaysDecided(states, actions, m + 1, n, d);
    if n < |actions| {
      assert Next(states[n], actions[n], states[n + 1]);
      if actions[n].Send? { DeliverableAroundSend(states, actions, n, actions[n].w); }
    }
  }

  /** A row that is due, open and below its last attempt can be claimed by a worker at rest,
      and gets the next attempt number and a lease of a minute. */
  lemma DueRowCanBeClaimed(s: State, w: Worker, d: RowId)
    requires w in s.workers && s.workers[w] == RESTING && d in s.rows && Unlocked(s, d)
    requires (s.rows[d].status == Pending || s.rows[d].status == Failed) && s.rows[d].attempts < 5
    requires s.rows[d].nextAttempt.Some? && s.rows[d].nextAttempt.value <= s.clock
    ensures exists s' :: Next(s, ClaimRow(w, d), s') && d in s'.rows &&
              s'.rows[d] == s.rows[d].(attempts := s.rows[d].attempts + 1, nextAttempt := Some(s.clock + 60))
  {
    var s' := With(s.(rows := s.rows[d := Taken(s.rows[d], s.clock)]), w,
                   WorkerState(Claimed(ClaimOf(d, s.rows[d])), {}, None));
    assert Next(s, ClaimRow(w, d), s');
  }

  /** A delivery that finds its row taken over still commits the lease it took before its
      send: the time limit of its channel and half a minute. */
  lemma TakenOverKeepsLease(s: State, c: Claim, start: int, outcome: Outcome)
    requires c.row in s.rows && s.rows[c.row].attempts != c.attempt
    ensures Recorded(s, c, start, outcome).rows ==
            s.rows[c.row := s.rows[c.row].(nextAttempt := Some(start + if c.channel == Telegram then 45 else 60))]
  {}
}
