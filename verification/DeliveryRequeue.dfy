/** The manual requeue of a failed or dead-letter row, which sets its attempt number back:
    exactly when it keeps the protocol's invariant, and runs that guard it. */
module DeliveryRequeue {
  import opened Optional
  import opened DeliveryProtocol
  import opened DeliveryInvariants
  import opened DeliverySafety

  /** The sends of a requeued row belong to the past: its attempts are counted afresh. */
  function Without(sends: seq<(RowId, nat)>, d: RowId): (r: seq<(RowId, nat)>)
    ensures forall e :: e in r <==> e in sends && e.0 != d
    ensures NoDuplicates(sends) ==> NoDuplicates(r)
  {
    if sends == [] then []
    else
      var rest, last := sends[..|sends| - 1], sends[|sends| - 1];
      assert sends == rest + [last];
      assert NoDuplicates(sends) ==> NoDuplicates(rest) && last !in rest;
      if last.0 == d then Without(rest, d) else Without(rest, d) + [last]
  }

  function Requeued(s: State, d: RowId): State
    requires d in s.rows
  {
    s.(rows := s.rows[d := s.rows[d].(status := Pending, attempts := 0, nextAttempt := Some(s.clock))],
       sends := Without(s.sends, d))
  }

  /** The update finds the row failed or dead, and waits until nobody has it locked. */
  ghost predicate MayRequeue(s: State, d: RowId) {
    d in s.rows && (s.rows[d].status == Failed || s.rows[d].status == DeadLetter) && Unlocked(s, d)
  }

  predicate Claims(ws: WorkerState, d: RowId) {
    HasClaim(ws.phase) && ws.phase.claim.row == d
  }

  ghost predicate Unclaimed(s: State, d: RowId) {
    forall w | w in s.workers :: !Claims(s.workers[w], d)
  }

  lemma UnclaimedWorkerStaysOk(s: State, d: RowId, w: Worker)
    requires MayRequeue(s, d) && w in s.workers && EachOk(s, w) && !Claims(s.workers[w], d)
    ensures EachOk(Requeued(s, d), w)
  {
    var s', ws := Requeued(s, d), s.workers[w];
    if ws.phase.Writing? {
      forall l | l in ws.held ensures WriterLock(s', ws, ws.phase.due, l) {
        assert WriterLock(s, ws, ws.phase.due, l);
      }
    }
  }

  /** A requeue keeps the protocol's invariant if and only if no worker still holds a
      claim of the row. */
  lemma RequeueIsSafeIff(s: State, d: RowId)
    requires Inv(s) && MayRequeue(s, d)
    ensures Inv(Requeued(s, d)) <==> Unclaimed(s, d)
  {
    var s' := Requeued(s, d);
    if Unclaimed(s, d) {
      forall w | w in s'.workers ensures EachOk(s', w) {
        assert EachOk(s, w);
        UnclaimedWorkerStaysOk(s, d, w);
      }
      forall r | r in s'.rows ensures RowOk(s', s'.rows[r]) { assert RowOk(s, s.rows[r]); }
      forall e | e in s'.sends ensures SentWasClaimed(s', e) { assert SentWasClaimed(s, e); }
    } else {
      var w :| w in s.workers && Claims(s.workers[w], d);
      assert !ClaimOk(s', s.workers[w].phase.claim);
      assert Inv(s') ==> EachOk(s', w);
    }
  }

  /** When a worker still holds the row's first claim, the next claim after a requeue is
      the same one: both workers pass the fence with one attempt number. */
  lemma RequeueRevivesClaim(s: State, d: RowId, w: Worker, v: Worker, s': State)
    requires MayRequeue(s, d) && w in s.workers && v in s.workers && w != v
    requires Claims(s.workers[w], d) && ClaimOk(s, s.workers[w].phase.claim) && s.workers[w].phase.claim.attempt == 1
    requires ClaimNext(Requeued(s, d), v, d, s')
    ensures s'.workers[v].phase.claim == s'.workers[w].phase.claim == s.workers[w].phase.claim
    ensures Fenced(s', s'.workers[v].phase.claim) && !Inv(s')
  {
    assert Inv(s') ==> PairOk(s'.workers[w], s'.workers[v]);
  }

  // ----------------------------------------------------------------------- paths

  ghost predicate Steps(s: State, s': State) {
    exists a :: Next(s, a, s')
  }

  ghost predicate IsPath(states: seq<State>) {
    states != [] && forall k | 0 < k < |states| :: Steps(states[k - 1], states[k])
  }

  function Last(states: seq<State>): State
    requires states != []
  {
    states[|states| - 1]
  }

  lemma Then(states: seq<State>, a: Action, s': State) returns (longer: seq<State>)
    requires IsPath(states) && Next(Last(states), a, s')
    ensures IsPath(longer) && Last(longer) == s' && longer[0] == states[0]
  {
    longer := states + [s'];
    forall k | 0 < k < |longer| ensures Steps(longer[k - 1], longer[k]) {
      if k < |states| { assert Steps(states[k - 1], states[k]); }
    }
  }

  lemma {:induction false} PathKeepsInv(states: seq<State>, n: nat)
    requires IsPath(states) && Inv(states[0]) && n < |states|
    ensures Inv(states[n])
  {
    if n > 0 {
      PathKeepsInv(states, n - 1);
      assert Steps(states[n - 1], states[n]);
      var a :| Next(states[n - 1], a, states[n]);
      NextKeepsInv(states[n - 1], a, states[n]);
    }
  }

  ghost predicate LeadsToDuplicate(s: State) {
    exists states :: IsPath(states) && states[0] == s && !NoDuplicates(Last(states).sends)
  }

  // ----------------------------------------------------- runs with guarded requeues

  ghost predicate GuardedStep(s: State, s': State) {
    Steps(s, s') || (exists d :: MayRequeue(s, d) && Unclaimed(s, d) && s' == Requeued(s, d))
  }

  ghost predicate IsGuardedRun(states: seq<State>) {
    states != [] && Init(states[0]) && forall k | 0 <= k < |states| - 1 :: GuardedStep(states[k], states[k + 1])
  }

  predicate Sending(ws: WorkerState) {
    ws.phase.Delivering? && Late(ws.phase.stage)
  }

  /** With requeues of unclaimed rows only, the invariant holds in every reachable state;
      so does all that follows from it, such as deliverability around every send. */
  lemma {:induction false} GuardedRunIsSafe(states: seq<State>, n: nat)
    requires IsGuardedRun(states) && n < |states|
    ensures Inv(states[n])
    ensures forall w | w in states[n].workers && Sending(states[n].workers[w]) ::
              StillDeliverable(states[n], states[n].workers[w].phase.claim)
  {
    if n == 0 {
      InitIsSafe(states[0]);
    } else {
      GuardedRunIsSafe(states, n - 1);
      var s, s' := states[n - 1], states[n];
      assert GuardedStep(states[n - 1], states[n - 1 + 1]);
      if a :| Next(s, a, s') {
        NextKeepsInv(s, a, s');
      } else {
        var d :| MayRequeue(s, d) && Unclaimed(s, d) && s' == Requeued(s, d);
        RequeueIsSafeIff(s, d);
      }
    }
    forall w | w in states[n].workers && Sending(states[n].workers[w])
      ensures StillDeliverable(states[n], states[n].workers[w].phase.claim)
    {
      LateIsDeliverable(states[n], w);
    }
  }

  lemma InitIsSafe(s: State)
    requires Init(s)
    ensures Inv(s)
  {
    forall w | w in s.workers ensures EachOk(s, w) {}
  }

  predicate Settled(status: QueueStatus) {
    status == Sent || status == Skipped || status == Acknowledged
  }

  predicate KeptOrAcknowledged(before: Delivery, after: Delivery) {
    after == before || (before.status == Sent && after == before.(status := Acknowledged))
  }

  lemma SettledOverStep(s: State, s': State, d: RowId)
    requires Inv(s) && GuardedStep(s, s') && d in s.rows && Settled(s.rows[d].status)
    ensures d in s'.rows && KeptOrAcknowledged(s.rows[d], s'.rows[d])
  {
    if a :| Next(s, a, s') {
      if a.Acknowledge? { assert OutsideNext(s, a, s'); } else { DecidedRowIsFinal(s, a, s', d); }
    }
  }

  predicate SettledIsKept(s: State, s': State, d: RowId) {
    d in s.rows && Settled(s.rows[d].status) ==> d in s'.rows && KeptOrAcknowledged(s.rows[d], s'.rows[d])
  }

  lemma SettledOverRunStep(states: seq<State>, n: nat, d: RowId)
    requires IsGuardedRun(states) && n + 1 < |states|
    ensures SettledIsKept(states[n], states[n + 1], d)
  {
    GuardedRunIsSafe(states, n);
    assert GuardedStep(states[n], states[n + 1]);
    if d in states[n].rows && Settled(states[n].rows[d].status) { SettledOverStep(states[n], states[n + 1], d); }
  }

  lemma {:induction false} SettledAlong(states: seq<State>, m: nat, n: nat, d: RowId)
    requires m <= n < |states| && d in states[m].rows && Settled(states[m].rows[d].status)
    requires forall k | 0 <= k < |states| - 1 :: SettledIsKept(states[k], states[k + 1], d)
    ensures d in states[n].rows && KeptOrAcknowledged(states[m].rows[d], states[n].rows[d])
    decreases n - m
  {
    if m < n {
      SettledAlong(states, m, n - 1, d);
      assert SettledIsKept(states[n - 1], states[n - 1 + 1], d);
    }
  }

  /** No requeue brings back a message that went out or was skipped: in a guarded run such
      a row stays as it is, and a sent one is at most acknowledged. */
  lemma SettledRowStaysSettled(states: seq<State>, m: nat, n: nat, d: RowId)
    requires IsGuardedRun(states) && m <= n < |states| && d in states[m].rows
    requires var status := states[m].rows[d].status; status == Sent || status == Skipped || status == Acknowledged
    ensures d in states[n].rows
    ensures var before, after := states[m].rows[d], states[n].rows[d];
            after == before || (before.status == Sent && after == before.(status := Acknowledged))
  {
    forall k | 0 <= k < |states| - 1 ensures SettledIsKept(states[k], states[k + 1], d) {
      SettledOverRunStep(states, k, d);
    }
    SettledAlong(states, m, n, d);
  }
}
