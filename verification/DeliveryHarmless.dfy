/** Claims that cannot be sent any more: a requeue of their row does no harm.  Seen from
    outside, a worker with such a claim behaves like a transaction that persists alerts. */
module DeliveryHarmless {
  import opened Optional
  import opened DeliveryProtocol
  import opened DeliveryInvariants
  import opened DeliverySafety
  import opened DeliveryRequeue

  /** The alert is superseded, or the worker has found the delivery blocked, or it holds the
      setting of its source, which is switched off. */
  predicate Blocked(s: State, ws: WorkerState) {
    && HasClaim(ws.phase) && ws.phase.claim.kind == Official
    && var c := ws.phase.claim;
       || !Current(s, c.alert)
       || (ws.phase.Delivering? && ws.phase.stage == Skipping)
       || (SettingShare(c.source) in ws.held && !Live(s, c.source))
  }

  /** What the row and the alert of a claim keep for ever. */
  predicate AboutItsRow(s: State, c: Claim) {
    && c.row in s.rows && s.rows[c.row].kind == c.kind && s.rows[c.row].source == c.source
    && c.alert in s.alerts && s.alerts[c.alert].source == c.source
  }

  /** The locks of a blocked worker, whatever the number of its claim. */
  predicate BlockedLocks(s: State, ws: WorkerState, c: Claim, stage: Stage) {
    && ws.held <= {Advisory(c.source), SettingShare(c.source), AlertShare(c.alert), QueueRow(c.row)}
    && (ws.held != {} || stage != Opened ==> Advisory(c.source) in ws.held)
    && (stage == Opened ==> ws.held <= {Advisory(c.source), SettingShare(c.source)})
    && (stage == SettingOk ==> SettingShare(c.source) in ws.held && Live(s, c.source))
    && !Late(stage) && stage != AlertOk
  }

  ghost predicate BlockedOk(s: State, ws: WorkerState) {
    && Blocked(s, ws) && AboutItsRow(s, ws.phase.claim)
    && match ws.phase
       case Delivering(c, _, stage) => BlockedLocks(s, ws, c, stage) && WantOk(s, ws)
       case _ => ws.held == {} && ws.want.None?
  }

  lemma BlockedIsOk(s: State, w: Worker)
    requires Inv(s) && w in s.workers && Blocked(s, s.workers[w])
    ensures BlockedOk(s, s.workers[w])
  {
    assert EachOk(s, w);
    assert RowOk(s, s.rows[s.workers[w].phase.claim.row]);
  }

  // ---------------------------------------------------------------- the shadow run

  /** The same worker as a transaction of its source that persists nothing. */
  function Shadow(ws: WorkerState): WorkerState {
    match ws.phase
    case Delivering(c, _, _) =>
      WorkerState(Writing([c.source]), ws.held - {AlertShare(c.alert)},
                  if ws.want == Some(AlertShare(c.alert)) then None else ws.want)
    case _ => RESTING
  }

  function Shadowed(s: State, blocked: set<Worker>): State {
    s.(workers := map w | w in s.workers :: if w in blocked then Shadow(s.workers[w]) else s.workers[w])
  }

  /** The workers listed are blocked, and with them in the shadow the invariant holds. */
  ghost predicate Covered(s: State, blocked: set<Worker>) {
    && (forall w | w in blocked :: w in s.workers && BlockedOk(s, s.workers[w]))
    && Inv(Shadowed(s, blocked))
  }

  lemma ShadowWriterOk(s: State, ws: WorkerState)
    requires BlockedOk(s, ws)
    ensures WorkerOk(s, Shadow(ws)) && WantOk(s, Shadow(ws)) && SentOnlyWhenDone(s, Shadow(ws))
  {
    if ws.phase.Delivering? {
      var due := [ws.phase.claim.source];
      assert due[0] == ws.phase.claim.source;
      ShadowWantOk(s, ws);
    }
  }

  lemma ShadowWantOk(s: State, ws: WorkerState)
    requires BlockedOk(s, ws) && ws.phase.Delivering?
    ensures WantOk(s, Shadow(ws))
  {
    var c, sh := ws.phase.claim, Shadow(ws);
    if sh.want.Some? { ShadowMayRequest(s, ws.(want := None), c, ws.phase.stage, sh.want.value); }
  }

  lemma ShadowMayRequest(s: State, ws: WorkerState, c: Claim, stage: Stage, l: Lock)
    requires ws.phase.Delivering? && ws.phase.claim == c && ws.phase.stage == stage && c.kind == Official
    requires BlockedLocks(s, ws, c, stage) && AboutItsRow(s, c) && MayRequest(s, ws, l) && l != AlertShare(c.alert)
    ensures MayRequest(s, Shadow(ws), l)
  {
    var due := [c.source];
    assert due[0] == c.source;
    assert l == Advisory(c.source) ==> Shadow(ws).held == {};
  }

  /** Putting blocked workers into the shadow keeps the invariant. */
  lemma {:induction false} ShadowKeepsInv(s: State, blocked: set<Worker>)
    requires Inv(s) && forall w | w in blocked :: w in s.workers && Blocked(s, s.workers[w])
    ensures Covered(s, blocked)
  {
    forall w | w in blocked ensures BlockedOk(s, s.workers[w]) { BlockedIsOk(s, w); }
    if blocked == {} {
      assert Shadowed(s, {}) == s;
    } else {
      var w :| w in blocked;
      ShadowKeepsInv(s, blocked - {w});
      OneIntoShadow(s, blocked - {w}, w);
      assert blocked - {w} + {w} == blocked;
    }
  }

  lemma OneIntoShadow(s: State, blocked: set<Worker>, w: Worker)
    requires Covered(s, blocked) && w in s.workers && w !in blocked && BlockedOk(s, s.workers[w])
    ensures Covered(s, blocked + {w})
  {
    var before, sh := Shadowed(s, blocked), Shadow(s.workers[w]);
    assert Shadowed(s, blocked + {w}) == With(before, w, sh);
    ShadowWriterOk(s, s.workers[w]);
    SameTablesSameOk(s, before, sh);
    LocalStep(before, w, sh);
  }

  lemma SameTablesSameOk(s: State, t: State, ws: WorkerState)
    requires t == s.(workers := t.workers) && WorkerOk(s, ws) && WantOk(s, ws) && SentOnlyWhenDone(s, ws)
    ensures WorkerOk(t, ws) && WantOk(t, ws) && SentOnlyWhenDone(t, ws)
  {
    if ws.phase.Writing? {
      forall l | l in ws.held ensures WriterLock(t, ws, ws.phase.due, l) { assert WriterLock(s, ws, ws.phase.due, l); }
    }
  }

  // ------------------------------------------------------ a step of a blocked worker

  lemma SameRowsStayBlocked(s: State, s': State, ws: WorkerState)
    requires BlockedOk(s, ws) && s'.alerts == s.alerts && s'.settings == s.settings
    requires forall d | d in s.rows :: KeepsRow(s, s', d)
    ensures BlockedOk(s', ws)
  {}

  lemma OthersStayBlocked(s: State, blocked: set<Worker>, w: Worker, ws: WorkerState)
    requires Covered(s, blocked) && w in blocked && BlockedOk(s, ws)
    requires Inv(With(Shadowed(s, blocked), w, Shadow(ws)))
    ensures Covered(With(s, w, ws), blocked)
  {
    var s' := With(s, w, ws);
    assert Shadowed(s', blocked) == With(Shadowed(s, blocked), w, Shadow(ws));
    forall v | v in blocked ensures v in s'.workers && BlockedOk(s', s'.workers[v]) {
      SameRowsStayBlocked(s, s', s'.workers[v]);
    }
  }

  /** A step that nobody sees in the shadow. */
  lemma HiddenStep(s: State, blocked: set<Worker>, w: Worker, ws: WorkerState)
    requires Covered(s, blocked) && w in blocked && BlockedOk(s, ws) && Shadow(ws) == Shadow(s.workers[w])
    ensures Covered(With(s, w, ws), blocked)
  {
    assert With(Shadowed(s, blocked), w, Shadow(ws)) == Shadowed(s, blocked);
    OthersStayBlocked(s, blocked, w, ws);
  }

  lemma BlockedBegins(s: State, blocked: set<Worker>, w: Worker, s': State)
    requires Covered(s, blocked) && w in blocked && Next(s, Begin(w), s')
    ensures Covered(s', blocked)
  {
    var t, ws' := Shadowed(s, blocked), s'.workers[w];
    var due := [ws'.phase.claim.source];
    assert ws'.held - {AlertShare(ws'.phase.claim.alert)} == {};
    NextKeepsInv(t, StartWriting(w, due), With(t, w, Shadow(ws')));
    OthersStayBlocked(s, blocked, w, ws');
  }

  lemma BlockedRequests(s: State, blocked: set<Worker>, w: Worker, l: Lock, s': State)
    requires Covered(s, blocked) && w in blocked && Next(s, Request(w, l), s')
    ensures Covered(s', blocked)
  {
    var t, ws, ws', c := Shadowed(s, blocked), s.workers[w], s'.workers[w], s.workers[w].phase.claim;
    assert ws'.(want := None) == ws;
    if l == AlertShare(c.alert) {
      HiddenStep(s, blocked, w, ws');
    } else {
      ShadowMayRequest(s, ws, c, ws.phase.stage, l);
      assert MayRequest(t, Shadow(ws), l);
      NextKeepsInv(t, Request(w, l), With(t, w, Shadow(ws')));
      OthersStayBlocked(s, blocked, w, ws');
    }
  }

  lemma FreeInShadow(s: State, blocked: set<Worker>, w: Worker, l: Lock)
    requires Free(s, w, l)
    ensures Free(Shadowed(s, blocked), w, l)
  {}

  lemma BlockedIsGranted(s: State, blocked: set<Worker>, w: Worker, s': State)
    requires Covered(s, blocked) && w in blocked && Next(s, Grant(w), s')
    ensures Covered(s', blocked)
  {
    var t, ws, ws', c := Shadowed(s, blocked), s.workers[w], s'.workers[w], s.workers[w].phase.claim;
    var l := ws.want.value;
    assert MayRequest(s, ws.(want := None), l);
    if l == AlertShare(c.alert) {
      assert ws'.held - {l} == ws.held - {l};
      HiddenStep(s, blocked, w, ws');
    } else {
      FreeInShadow(s, blocked, w, l);
      assert ws'.held - {AlertShare(c.alert)} == ws.held - {AlertShare(c.alert)} + {l};
      NextKeepsInv(t, Grant(w), With(t, w, Shadow(ws')));
      OthersStayBlocked(s, blocked, w, ws');
    }
  }

  /** Its checks never let it through, and nobody else sees them. */
  lemma BlockedChecks(s: State, blocked: set<Worker>, a: Action, w: Worker, s': State)
    requires Covered(s, blocked) && w in blocked && CheckNext(s, a, w, s.workers[w], s')
    ensures Covered(s', blocked)
  {
    HiddenStep(s, blocked, w, s'.workers[w]);
  }

  lemma BlockedLeaves(s: State, blocked: set<Worker>, w: Worker, s': State)
    requires Covered(s, blocked) && w in blocked && s' == With(s.(rows := s'.rows), w, RESTING)
    requires Inv(With(Shadowed(s, blocked).(rows := s'.rows), w, RESTING))
    requires forall d | d in s.rows :: KeepsRow(s, s', d)
    ensures Covered(s', blocked - {w})
  {
    assert Shadowed(s', blocked - {w}) == With(Shadowed(s, blocked).(rows := s'.rows), w, RESTING);
    forall v | v in blocked - {w} ensures v in s'.workers && BlockedOk(s', s'.workers[v]) {
      SameRowsStayBlocked(s, s', s.workers[v]);
    }
  }

  /** It writes what a transaction that supersedes the row would write. */
  lemma ShadowSkips(s: State, blocked: set<Worker>, w: Worker, s': State)
    requires Covered(s, blocked) && w in blocked && Next(s, FinishSkip(w), s')
    ensures Next(Shadowed(s, blocked), CommitWriting(w, s.alerts, s'.rows),
                 With(Shadowed(s, blocked).(rows := s'.rows), w, RESTING))
  {
    var ws, sh := s.workers[w], Shadow(s.workers[w]);
    assert QueueRow(ws.phase.claim.row) in sh.held;
    assert WriterEffect(Shadowed(s, blocked), sh, sh.phase.due, s.alerts, s'.rows);
  }

  /** The transaction of a blocked worker ends. */
  lemma BlockedEnds(s: State, blocked: set<Worker>, a: Action, s': State)
    requires Covered(s, blocked) && Next(s, a, s') && (a.FinishSkip? || a.Crash?) && a.w in blocked
    ensures Covered(s', blocked - {a.w})
  {
    var t := Shadowed(s, blocked);
    var t' := With(t.(rows := s'.rows), a.w, RESTING);
    if a.FinishSkip? {
      ShadowSkips(s, blocked, a.w, s');
      NextKeepsInv(t, CommitWriting(a.w, s.alerts, s'.rows), t');
    } else {
      NextKeepsInv(t, a, t');
    }
    forall d | d in s.rows ensures KeepsRow(s, s', d) { NextKeepsRow(s, a, s', d); }
    BlockedLeaves(s, blocked, a.w, s');
  }

  /** No other action is open to it. */
  lemma BlockedActions(s: State, a: Action, s': State)
    requires Next(s, a, s') && !FromOutside(a) && a.w in s.workers && BlockedOk(s, s.workers[a.w])
    ensures a.Begin? || a.Request? || a.Grant? || a.CheckSetting? || a.CheckAlert? || a.FinishSkip? || a.Crash?
  {}

  lemma BlockedStep(s: State, blocked: set<Worker>, a: Action, s': State) returns (blocked': set<Worker>)
    requires Covered(s, blocked) && Next(s, a, s') && !FromOutside(a) && a.w in blocked
    ensures Covered(s', blocked')
  {
    BlockedActions(s, a, s');
    blocked' := if a.FinishSkip? || a.Crash? then blocked - {a.w} else blocked;
    if a.Begin? {
      BlockedBegins(s, blocked, a.w, s');
    } else if a.Request? {
      BlockedRequests(s, blocked, a.w, a.lock, s');
    } else if a.Grant? {
      BlockedIsGranted(s, blocked, a.w, s');
    } else if a.FinishSkip? || a.Crash? {
      BlockedEnds(s, blocked, a, s');
    } else {
      BlockedChecks(s, blocked, a, a.w, s');
    }
  }

  // -------------------------------------------------------- a step of anybody else

  lemma AlertsNeverRegain(s: State, a: Action, s': State, x: AlertId)
    requires Next(s, a, s') && x in s.alerts
    ensures x in s'.alerts && MayBecome(s.alerts[x], s'.alerts[x])
  {}

  lemma SettingIsHeld(s: State, blocked: set<Worker>, a: Action, s': State, v: Worker, source: Source)
    requires Covered(s, blocked) && v in blocked && SettingShare(source) in s.workers[v].held
    requires Next(s, a, s') && !FromOutside(a) && a.w !in blocked
    ensures Live(s', source) == Live(s, source)
  {
    if a.CommitAdmin? {
      var t := Shadowed(s, blocked);
      assert PairOk(t.workers[v], t.workers[a.w]);
      assert Conflict(SettingShare(source), SettingExclusive(source));
      assert SettingShare(source) in t.workers[v].held;
    }
  }

  /** Only what a blocked worker has locked matters to it. */
  lemma BlockedOutlasts(s: State, s': State, ws: WorkerState)
    requires BlockedOk(s, ws) && KeepsRow(s, s', ws.phase.claim.row)
    requires var c := ws.phase.claim;
             c.alert in s'.alerts && MayBecome(s.alerts[c.alert], s'.alerts[c.alert]) &&
             (SettingShare(c.source) in ws.held ==> Live(s', c.source) == Live(s, c.source))
    ensures BlockedOk(s', ws)
  {}

  lemma WorkerIsLeft(s: State, a: Action, s': State, v: Worker)
    requires Next(s, a, s') && v in s.workers && (FromOutside(a) || a.w != v)
    ensures v in s'.workers && s'.workers[v] == s.workers[v]
    ensures FromOutside(a) ==> s'.settings == s.settings
  {}

  lemma BlockedStays(s: State, blocked: set<Worker>, a: Action, s': State, v: Worker)
    requires Covered(s, blocked) && v in blocked && Next(s, a, s') && (FromOutside(a) || a.w !in blocked)
    ensures v in s'.workers && s'.workers[v] == s.workers[v] && BlockedOk(s', s'.workers[v])
  {
    var ws, c := s.workers[v], s.workers[v].phase.claim;
    NextKeepsRow(s, a, s', c.row);
    AlertsNeverRegain(s, a, s', c.alert);
    WorkerIsLeft(s, a, s', v);
    if SettingShare(c.source) in ws.held && !FromOutside(a) { SettingIsHeld(s, blocked, a, s', v, c.source); }
    BlockedOutlasts(s, s', ws);
  }

  /** A worker outside the shadow does the same with the others in the shadow. */
  lemma OtherLeavesShadow(s: State, blocked: set<Worker>, w: Worker, s': State)
    requires w in s.workers && w !in blocked && w in s'.workers && s'.workers == s.workers[w := s'.workers[w]]
    ensures Shadowed(s, blocked).workers[w] == s.workers[w]
    ensures Shadowed(s', blocked) == With(s'.(workers := Shadowed(s, blocked).workers), w, s'.workers[w])
  {}

  lemma OtherOpens(s: State, blocked: set<Worker>, a: Action, s': State)
    requires !FromOutside(a) && a.w in s.workers && a.w !in blocked && OpenNext(s, a, a.w, s.workers[a.w], s')
    ensures OpenNext(Shadowed(s, blocked), a, a.w, s.workers[a.w], Shadowed(s', blocked))
  {
    OtherLeavesShadow(s, blocked, a.w, s');
  }

  lemma OtherClaims(s: State, blocked: set<Worker>, w: Worker, d: RowId, s': State)
    requires w in s.workers && w !in blocked && ClaimNext(s, w, d, s')
    ensures ClaimNext(Shadowed(s, blocked), w, d, Shadowed(s', blocked))
  {
    OtherLeavesShadow(s, blocked, w, s');
  }

  lemma OtherChecks(s: State, blocked: set<Worker>, a: Action, w: Worker, s': State)
    requires w in s.workers && w !in blocked && CheckNext(s, a, w, s.workers[w], s')
    ensures CheckNext(Shadowed(s, blocked), a, w, s.workers[w], Shadowed(s', blocked))
  {
    OtherLeavesShadow(s, blocked, w, s');
  }

  lemma OtherSends(s: State, blocked: set<Worker>, w: Worker, outcome: Outcome, s': State)
    requires w in s.workers && w !in blocked && SendNext(s, w, s.workers[w], outcome, s')
    ensures SendNext(Shadowed(s, blocked), w, s.workers[w], outcome, Shadowed(s', blocked))
  {
    OtherLeavesShadow(s, blocked, w, s');
  }

  lemma OtherRecords(s: State, blocked: set<Worker>, a: Action, w: Worker, s': State)
    requires w in s.workers && w !in blocked && OutcomeNext(s, a, w, s.workers[w], s')
    ensures OutcomeNext(Shadowed(s, blocked), a, w, s.workers[w], Shadowed(s', blocked))
  {
    OtherLeavesShadow(s, blocked, w, s');
  }

  lemma OtherDelivers(s: State, blocked: set<Worker>, a: Action, s': State)
    requires Delivers(a) && a.w in s.workers && a.w !in blocked && Next(s, a, s')
    ensures Next(Shadowed(s, blocked), a, Shadowed(s', blocked))
  {
    OtherLeavesShadow(s, blocked, a.w, s');
    if a.Send? {
      OtherSends(s, blocked, a.w, a.outcome, s');
    } else if a.FinishSkip? || a.Record? {
      OtherRecords(s, blocked, a, a.w, s');
    } else {
      OtherChecks(s, blocked, a, a.w, s');
    }
  }

  lemma OtherCommits(s: State, blocked: set<Worker>, a: Action, s': State)
    requires (a.CommitWriting? || a.CommitAdmin?) && a.w in s.workers && a.w !in blocked && Next(s, a, s')
    ensures Next(Shadowed(s, blocked), a, Shadowed(s', blocked))
  {
    OtherLeavesShadow(s, blocked, a.w, s');
  }

  lemma OtherIsGranted(s: State, blocked: set<Worker>, w: Worker, s': State)
    requires w in s.workers && w !in blocked && GrantNext(s, w, s.workers[w], s')
    ensures GrantNext(Shadowed(s, blocked), w, s.workers[w], Shadowed(s', blocked))
  {
    OtherLeavesShadow(s, blocked, w, s');
    FreeInShadow(s, blocked, w, s.workers[w].want.value);
  }

  lemma OtherStep(s: State, blocked: set<Worker>, a: Action, s': State)
    requires Next(s, a, s') && (FromOutside(a) || a.w !in blocked)
    ensures Next(Shadowed(s, blocked), a, Shadowed(s', blocked))
  {
    if !FromOutside(a) {
      OtherLeavesShadow(s, blocked, a.w, s');
      if Delivers(a) {
        OtherDelivers(s, blocked, a, s');
      } else if a.CommitWriting? || a.CommitAdmin? {
        OtherCommits(s, blocked, a, s');
      } else if a.ClaimRow? {
        OtherClaims(s, blocked, a.w, a.row, s');
      } else if a.Grant? {
        OtherIsGranted(s, blocked, a.w, s');
      } else {
        OtherOpens(s, blocked, a, s');
      }
    }
  }

  // ------------------------------------------------------------------ whole runs

  lemma StepStaysCovered(s: State, blocked: set<Worker>, a: Action, s': State) returns (blocked': set<Worker>)
    requires Covered(s, blocked) && Next(s, a, s')
    ensures Covered(s', blocked')
  {
    if FromOutside(a) || a.w !in blocked {
      blocked' := blocked;
      forall v | v in blocked ensures v in s'.workers && BlockedOk(s', s'.workers[v]) {
        BlockedStays(s, blocked, a, s', v);
      }
      OtherStep(s, blocked, a, s');
      NextKeepsInv(Shadowed(s, blocked), a, Shadowed(s', blocked));
    } else {
      blocked' := BlockedStep(s, blocked, a, s');
    }
  }

  lemma {:induction false} PathStaysCovered(states: seq<State>, blocked: set<Worker>, n: nat)
    returns (blocked': set<Worker>)
    requires IsPath(states) && Covered(states[0], blocked) && n < |states|
    ensures Covered(states[n], blocked')
  {
    if n == 0 {
      blocked' := blocked;
    } else {
      var before := PathStaysCovered(states, blocked, n - 1);
      assert Steps(states[n - 1], states[n]);
      var a :| Next(states[n - 1], a, states[n]);
      blocked' := StepStaysCovered(states[n - 1], before, a, states[n]);
    }
  }

  ghost predicate AllBlocked(s: State, d: RowId) {
    forall w | w in s.workers && Claims(s.workers[w], d) :: Blocked(s, s.workers[w])
  }

  lemma RequeuedStaysBlocked(s: State, d: RowId, w: Worker)
    requires Inv(s) && MayRequeue(s, d) && w in s.workers && Blocked(s, s.workers[w])
    ensures BlockedOk(Requeued(s, d), s.workers[w])
  {
    BlockedIsOk(s, w);
  }

  lemma RequeuedIsCovered(s: State, d: RowId) returns (blocked: set<Worker>)
    requires Inv(s) && MayRequeue(s, d) && AllBlocked(s, d)
    ensures Covered(Requeued(s, d), blocked)
  {
    blocked := set w | w in s.workers && Claims(s.workers[w], d);
    forall w | w in blocked ensures BlockedOk(Requeued(s, d), s.workers[w]) { RequeuedStaysBlocked(s, d, w); }
    ShadowKeepsInv(s, blocked);
    RequeueIsSafeIff(Shadowed(s, blocked), d);
    assert Requeued(Shadowed(s, blocked), d) == Shadowed(Requeued(s, d), blocked);
  }

  /** When every outstanding claim of the row is blocked, nothing is ever sent twice. */
  lemma BlockedClaimsAreHarmless(s: State, d: RowId)
    requires Inv(s) && MayRequeue(s, d) && AllBlocked(s, d)
    ensures !LeadsToDuplicate(Requeued(s, d))
  {
    var blocked := RequeuedIsCovered(s, d);
    forall states | IsPath(states) && states[0] == Requeued(s, d) ensures NoDuplicates(Last(states).sends) {
      var last := PathStaysCovered(states, blocked, |states| - 1);
    }
  }
}
