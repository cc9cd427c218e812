/** The invariant of the delivery protocol, and that every action keeps it. */
module DeliveryInvariants {
  import opened Optional
  import opened DeliveryProtocol

  // --------------------------------------------------------------- the invariant

  predicate HasClaim(p: Phase) {
    p.Claimed? || p.Delivering?
  }

  /** The claim agrees with its row, and its number is one the row has handed out. */
  predicate ClaimOk(s: State, c: Claim) {
    && c.row in s.rows
    && var row := s.rows[c.row];
       row.kind == c.kind && row.source == c.source && row.alert == c.alert && row.channel == c.channel
       && 1 <= c.attempt <= row.attempts
  }

  predicate Late(stage: Stage) {
    stage == Ready || stage.Done?
  }

  /** Locks and checks of an official delivery: source, setting, alert, queue row. */
  predicate OfficialOk(s: State, ws: WorkerState, c: Claim, stage: Stage) {
    && ws.held <= {Advisory(c.source), SettingShare(c.source), AlertShare(c.alert), QueueRow(c.row)}
    && (ws.held != {} || stage != Opened ==> Advisory(c.source) in ws.held)
    && (stage == Opened ==> ws.held <= {Advisory(c.source), SettingShare(c.source)})
    && (stage == SettingOk || stage == AlertOk || Late(stage) ==>
          SettingShare(c.source) in ws.held && Live(s, c.source))
    && (stage == SettingOk ==> QueueRow(c.row) !in ws.held)
    && (stage == AlertOk || Late(stage) ==> AlertShare(c.alert) in ws.held && Current(s, c.alert))
    && (Late(stage) ==> QueueRow(c.row) in ws.held && Fenced(s, c))
    && (stage == Skipping ==>
          (SettingShare(c.source) in ws.held && !Live(s, c.source)) ||
          (AlertShare(c.alert) in ws.held && c.alert in s.alerts && !s.alerts[c.alert].current))
  }

  predicate OtherOk(s: State, ws: WorkerState, c: Claim, stage: Stage) {
    && ws.held <= {QueueRow(c.row)}
    && (stage == Opened || Late(stage))
    && (Late(stage) ==> QueueRow(c.row) in ws.held && Fenced(s, c))
  }

  /** Locks of a persisting or expiring transaction, all covered by its source locks. */
  predicate WriterLock(s: State, ws: WorkerState, due: seq<Source>, l: Lock) {
    match l
    case Advisory(source) => source in due
    case SettingShare(_) => HoldsAll(ws, due)
    case AlertExclusive(a) => HoldsAll(ws, due) && a in s.alerts && s.alerts[a].source in due
    case QueueRow(d) => HoldsAll(ws, due) && d in s.rows && s.rows[d].kind == Official && s.rows[d].source in due
    case _ => false
  }

  ghost predicate WorkerOk(s: State, ws: WorkerState) {
    match ws.phase
    case Idle => ws.held == {} && ws.want.None?
    case Claimed(c) => ws.held == {} && ws.want.None? && ClaimOk(s, c)
    case Delivering(c, _, stage) =>
      ClaimOk(s, c) && if c.kind == Official then OfficialOk(s, ws, c, stage) else OtherOk(s, ws, c, stage)
    case Writing(due) => Ascending(due) && forall l | l in ws.held :: WriterLock(s, ws, due, l)
    case Administering(source) => ws.held <= {SettingExclusive(source)}
  }

  /** A pending request is one the transaction was allowed to make. */
  ghost predicate WantOk(s: State, ws: WorkerState) {
    ws.want.Some? ==> MayRequest(s, ws.(want := None), ws.want.value)
  }

  predicate Compatible(a: WorkerState, b: WorkerState) {
    forall l, h | l in a.held && h in b.held :: !Conflict(l, h)
  }

  predicate DistinctClaims(a: WorkerState, b: WorkerState) {
    HasClaim(a.phase) && HasClaim(b.phase) ==>
      a.phase.claim.row != b.phase.claim.row || a.phase.claim.attempt != b.phase.claim.attempt
  }

  /** No two workers hold clashing locks or the same attempt of the same row. */
  predicate PairOk(a: WorkerState, b: WorkerState) {
    Compatible(a, b) && DistinctClaims(a, b)
  }

  predicate RowOk(s: State, row: Delivery) {
    && row.attempts <= MAX_DELIVERY_ATTEMPTS
    && (row.kind == Official ==> row.alert in s.alerts && s.alerts[row.alert].source == row.source)
  }

  predicate SentWasClaimed(s: State, e: (RowId, nat)) {
    e.0 in s.rows && e.1 <= s.rows[e.0].attempts
  }

  /** A worker's attempt has been sent only if the worker is past its send. */
  predicate SentOnlyWhenDone(s: State, ws: WorkerState) {
    HasClaim(ws.phase) && (ws.phase.claim.row, ws.phase.claim.attempt) in s.sends ==>
      ws.phase.Delivering? && ws.phase.stage.Done?
  }

  predicate NoDuplicates(sends: seq<(RowId, nat)>) {
    forall j, k | 0 <= j < k < |sends| :: sends[j] != sends[k]
  }

  ghost predicate TablesOk(s: State) {
    && (forall d | d in s.rows :: RowOk(s, s.rows[d]))
    && (forall e | e in s.sends :: SentWasClaimed(s, e))
    && NoDuplicates(s.sends)
  }

  ghost predicate EachOk(s: State, w: Worker)
    requires w in s.workers
  {
    WorkerOk(s, s.workers[w]) && WantOk(s, s.workers[w]) && SentOnlyWhenDone(s, s.workers[w])
  }

  ghost predicate Inv(s: State) {
    && TablesOk(s)
    && (forall w | w in s.workers :: EachOk(s, w))
    && (forall v, w | v in s.workers && w in s.workers && v != w :: PairOk(s.workers[v], s.workers[w]))
  }

  lemma ConflictIsSymmetric(l: Lock, h: Lock)
    ensures Conflict(l, h) == Conflict(h, l)
  {}

  // ------------------------------------------------------------------- framing

  /** What stays the same of a row for ever. */
  predicate SameRow(a: Delivery, b: Delivery) {
    a.kind == b.kind && a.source == b.source && a.alert == b.alert && a.channel == b.channel && a.attempts <= b.attempts
  }

  /** The tables may change, but nothing that a worker in state `ws` has locked. */
  ghost predicate Respects(s: State, s': State, ws: WorkerState) {
    && (forall d | d in s.rows :: d in s'.rows && SameRow(s.rows[d], s'.rows[d]))
    && (forall a | a in s.alerts :: a in s'.alerts && s'.alerts[a].source == s.alerts[a].source)
    && (forall d | QueueRow(d) in ws.held && d in s.rows :: s'.rows[d] == s.rows[d])
    && (forall a | AlertShare(a) in ws.held && a in s.alerts :: s'.alerts[a] == s.alerts[a])
    && (forall x | SettingShare(x) in ws.held ::
          (x in s.settings <==> x in s'.settings) && (x in s.settings ==> s'.settings[x] == s.settings[x]))
  }

  lemma RespectedWorkerStaysOk(s: State, s': State, ws: WorkerState)
    requires WorkerOk(s, ws) && Respects(s, s', ws)
    ensures WorkerOk(s', ws)
  {
    if ws.phase.Writing? {
      forall l | l in ws.held ensures WriterLock(s', ws, ws.phase.due, l) {
        assert WriterLock(s, ws, ws.phase.due, l);
      }
    }
  }

  lemma RespectedWantStaysOk(s: State, s': State, ws: WorkerState)
    requires WantOk(s, ws) && Respects(s, s', ws)
    ensures WantOk(s', ws)
  {}

  // ------------------------------------------------------------- the step lemma

  ghost predicate PairsOk(s: State, w: Worker, ws: WorkerState) {
    forall v | v in s.workers && v != w :: PairOk(s.workers[v], ws)
  }

  ghost predicate OthersRespected(s: State, s': State, w: Worker) {
    forall v | v in s.workers && v != w :: Respects(s, s', s.workers[v]) && SentOnlyWhenDone(s', s.workers[v])
  }

  lemma PairIsSymmetric(a: WorkerState, b: WorkerState)
    requires PairOk(a, b)
    ensures PairOk(b, a)
  {}

  /** One worker moves; the others keep what they hold. */
  lemma StepKeepsInv(s: State, s': State, w: Worker, ws: WorkerState)
    requires Inv(s) && w in s.workers && s'.workers == s.workers[w := ws]
    requires TablesOk(s') && OthersRespected(s, s', w) && PairsOk(s, w, ws)
    requires WorkerOk(s', ws) && WantOk(s', ws) && SentOnlyWhenDone(s', ws)
    ensures Inv(s')
  {
    forall v | v in s'.workers ensures EachOk(s', v) {
      if v != w {
        assert EachOk(s, v);
        RespectedWorkerStaysOk(s, s', s.workers[v]);
        RespectedWantStaysOk(s, s', s.workers[v]);
      }
    }
    forall v, u | v in s'.workers && u in s'.workers && v != u ensures PairOk(s'.workers[v], s'.workers[u]) {
      if u == w {
        assert PairOk(s.workers[v], ws);
      } else if v == w {
        PairIsSymmetric(s.workers[u], ws);
      } else {
        assert PairOk(s.workers[v], s.workers[u]);
      }
    }
  }

  /** A worker state that holds no more, and claims nothing new. */
  predicate Weaker(b: WorkerState, a: WorkerState) {
    b.held <= a.held && (HasClaim(b.phase) ==> HasClaim(a.phase) && b.phase.claim == a.phase.claim)
  }

  lemma WeakerPairs(s: State, w: Worker, ws: WorkerState)
    requires Inv(s) && w in s.workers && Weaker(ws, s.workers[w])
    ensures PairsOk(s, w, ws)
  {}

  lemma NothingToRespect(s: State, s': State, w: Worker)
    requires Inv(s) && s'.rows == s.rows && s'.alerts == s.alerts && s'.settings == s.settings && s'.sends == s.sends
    ensures OthersRespected(s, s', w)
  {
    forall v | v in s.workers && v != w ensures SentOnlyWhenDone(s', s.workers[v]) {
      assert EachOk(s, v);
    }
  }

  /** Moves that touch no table. */
  lemma LocalStep(s: State, w: Worker, ws: WorkerState)
    requires Inv(s) && w in s.workers && Weaker(ws, s.workers[w])
    requires WorkerOk(s, ws) && WantOk(s, ws) && SentOnlyWhenDone(s, ws)
    ensures Inv(With(s, w, ws))
  {
    var s' := With(s, w, ws);
    NothingToRespect(s, s', w);
    WeakerPairs(s, w, ws);
    assert TablesOk(s');
    RespectedWorkerStaysOk(s, s', ws);
    RespectedWantStaysOk(s, s', ws);
    StepKeepsInv(s, s', w, ws);
  }

  // ------------------------------------------------------- the actions, one by one

  lemma OpenKeepsInv(s: State, a: Action, w: Worker, s': State)
    requires Inv(s) && w in s.workers && OpenNext(s, a, w, s.workers[w], s')
    ensures Inv(s')
  {
    assert EachOk(s, w);
    var ws, ws' := s.workers[w], s'.workers[w];
    assert a.Request? ==> ws'.(want := None) == ws;
    LocalStep(s, w, ws');
  }

  lemma CheckKeepsInv(s: State, a: Action, w: Worker, s': State)
    requires Inv(s) && w in s.workers && CheckNext(s, a, w, s.workers[w], s')
    ensures Inv(s')
  {
    assert EachOk(s, w);
    LocalStep(s, w, s'.workers[w]);
  }

  lemma GrantKeepsInv(s: State, w: Worker, s': State)
    requires Inv(s) && w in s.workers && GrantNext(s, w, s.workers[w], s')
    ensures Inv(s')
  {
    var ws := s.workers[w];
    var ws' := s'.workers[w];
    assert EachOk(s, w);
    forall v | v in s.workers && v != w ensures PairOk(s.workers[v], ws') {
      assert PairOk(s.workers[v], ws);
      forall l, h | l in s.workers[v].held && h in ws'.held ensures !Conflict(l, h) {
        ConflictIsSymmetric(l, h);
      }
    }
    NothingToRespect(s, s', w);
    GrantedWorkerOk(s, ws, ws');
    StepKeepsInv(s, s', w, ws');
  }

  lemma GrantedWorkerOk(s: State, ws: WorkerState, ws': WorkerState)
    requires WorkerOk(s, ws) && WantOk(s, ws) && ws.want.Some?
    requires ws' == ws.(held := ws.held + {ws.want.value}, want := None)
    ensures WorkerOk(s, ws')
  {
    var l := ws.want.value;
    assert MayRequest(s, ws.(want := None), l);
    if ws.phase.Writing? {
      forall h | h in ws'.held ensures WriterLock(s, ws', ws.phase.due, h) {
        assert h in ws.held ==> WriterLock(s, ws, ws.phase.due, h);
      }
    }
  }

  /** One row changes that no other worker has locked. */
  lemma OneRowRespected(s: State, s': State, w: Worker, d: RowId, row: Delivery)
    requires Inv(s) && d in s.rows && SameRow(s.rows[d], row) && row.attempts <= MAX_DELIVERY_ATTEMPTS
    requires s'.rows == s.rows[d := row] && s'.alerts == s.alerts && s'.settings == s.settings && s'.sends == s.sends
    requires forall v | v in s.workers && v != w :: QueueRow(d) !in s.workers[v].held
    ensures OthersRespected(s, s', w) && TablesOk(s')
  {
    forall v | v in s.workers && v != w ensures SentOnlyWhenDone(s', s.workers[v]) {
      assert EachOk(s, v);
    }
    forall e | e in s'.sends ensures SentWasClaimed(s', e) { assert SentWasClaimed(s, e); }
    forall r | r in s'.rows ensures RowOk(s', s'.rows[r]) { assert RowOk(s, s.rows[r]); }
  }

  lemma ClaimKeepsInv(s: State, w: Worker, d: RowId, s': State)
    requires Inv(s) && w in s.workers && ClaimNext(s, w, d, s')
    ensures Inv(s')
  {
    var ws' := s'.workers[w];
    OneRowRespected(s, s', w, d, Taken(s.rows[d], s.clock));
    assert RowOk(s, s.rows[d]);
    forall v | v in s.workers && v != w ensures PairOk(s.workers[v], ws') {
      assert EachOk(s, v);
    }
    var number: nat := s.rows[d].attempts + 1;
    assert (d, number) in s.sends ==> SentWasClaimed(s, (d, number));
    StepKeepsInv(s, s', w, ws');
  }

  lemma SendKeepsInv(s: State, w: Worker, outcome: Outcome, s': State)
    requires Inv(s) && w in s.workers && SendNext(s, w, s.workers[w], outcome, s')
    ensures Inv(s')
  {
    var ws, ws' := s.workers[w], s'.workers[w];
    var sent := (ws.phase.claim.row, ws.phase.claim.attempt);
    assert EachOk(s, w);
    WeakerPairs(s, w, ws');
    forall v | v in s.workers && v != w ensures Respects(s, s', s.workers[v]) && SentOnlyWhenDone(s', s.workers[v]) {
      assert EachOk(s, v) && PairOk(s.workers[v], ws);
    }
    forall e | e in s'.sends ensures SentWasClaimed(s', e) {
      assert e == sent || e in s.sends;
      if e in s.sends { assert SentWasClaimed(s, e); }
    }
    forall r | r in s'.rows ensures RowOk(s', s'.rows[r]) { assert RowOk(s, s.rows[r]); }
    assert NoDuplicates(s'.sends);
    RespectedWorkerStaysOk(s, s', ws);
    StepKeepsInv(s, s', w, ws');
  }

  /** While a worker holds a queue row, nobody else does. */
  lemma QueueRowIsExclusive(s: State, w: Worker, d: RowId)
    requires Inv(s) && w in s.workers && QueueRow(d) in s.workers[w].held
    ensures forall v | v in s.workers && v != w :: QueueRow(d) !in s.workers[v].held
  {
    forall v | v in s.workers && v != w ensures QueueRow(d) !in s.workers[v].held {
      assert PairOk(s.workers[v], s.workers[w]);
      assert Conflict(QueueRow(d), QueueRow(d));
    }
  }

  lemma RowWriteKeepsInv(s: State, s': State, w: Worker, row: Delivery)
    requires Inv(s) && w in s.workers && s.workers[w].phase.Delivering?
    requires var d := s.workers[w].phase.claim.row;
             QueueRow(d) in s.workers[w].held && d in s.rows && SameRow(s.rows[d], row) &&
             row.attempts == s.rows[d].attempts &&
             s' == With(s.(rows := s.rows[d := row]), w, RESTING)
    ensures Inv(s')
  {
    var d := s.workers[w].phase.claim.row;
    QueueRowIsExclusive(s, w, d);
    assert RowOk(s, s.rows[d]);
    OneRowRespected(s, s', w, d, row);
    WeakerPairs(s, w, RESTING);
    StepKeepsInv(s, s', w, RESTING);
  }

  lemma SkipKeepsInv(s: State, w: Worker, s': State)
    requires Inv(s) && w in s.workers && OutcomeNext(s, FinishSkip(w), w, s.workers[w], s')
    ensures Inv(s')
  {
    assert EachOk(s, w);
    var c := s.workers[w].phase.claim;
    if Fenced(s, c) {
      RowWriteKeepsInv(s, s', w, s.rows[c.row].(status := Skipped, nextAttempt := None));
    } else {
      LocalStep(s, w, RESTING);
    }
  }

  lemma RecordKeepsInv(s: State, w: Worker, s': State)
    requires Inv(s) && w in s.workers && OutcomeNext(s, Record(w), w, s.workers[w], s')
    ensures Inv(s')
  {
    assert EachOk(s, w);
    RowWriteKeepsInv(s, s', w, s'.rows[s.workers[w].phase.claim.row]);
  }

  lemma CommitAdminKeepsInv(s: State, w: Worker, setting: Setting, s': State)
    requires Inv(s) && w in s.workers && CommitAdminNext(s, w, s.workers[w], setting, s')
    ensures Inv(s')
  {
    var x := s.workers[w].phase.source;
    forall v | v in s.workers && v != w ensures Respects(s, s', s.workers[v]) && SentOnlyWhenDone(s', s.workers[v]) {
      assert EachOk(s, v) && PairOk(s.workers[v], s.workers[w]);
      assert Conflict(SettingShare(x), SettingExclusive(x));
    }
    forall e | e in s'.sends ensures SentWasClaimed(s', e) { assert SentWasClaimed(s, e); }
    forall r | r in s'.rows ensures RowOk(s', s'.rows[r]) { assert RowOk(s, s.rows[r]); }
    WeakerPairs(s, w, RESTING);
    StepKeepsInv(s, s', w, RESTING);
  }

  lemma CommitWritingKeepsInv(s: State, w: Worker, s': State)
    requires Inv(s) && w in s.workers && CommitWritingNext(s, w, s.workers[w], s'.alerts, s'.rows, s')
    ensures Inv(s')
  {
    var ws := s.workers[w];
    assert EachOk(s, w);
    forall v | v in s.workers && v != w ensures Respects(s, s', s.workers[v]) && SentOnlyWhenDone(s', s.workers[v]) {
      assert EachOk(s, v) && PairOk(s.workers[v], ws);
      forall d | QueueRow(d) in s.workers[v].held && d in s.rows ensures s'.rows[d] == s.rows[d] {
        assert Conflict(QueueRow(d), QueueRow(d));
      }
      forall x | AlertShare(x) in s.workers[v].held && x in s.alerts ensures s'.alerts[x] == s.alerts[x] {
        assert Conflict(AlertShare(x), AlertExclusive(x));
      }
    }
    forall e | e in s'.sends ensures SentWasClaimed(s', e) { assert SentWasClaimed(s, e); }
    forall r | r in s'.rows ensures RowOk(s', s'.rows[r]) {
      if r in s.rows { assert RowOk(s, s.rows[r]); }
    }
    WeakerPairs(s, w, RESTING);
    StepKeepsInv(s, s', w, RESTING);
  }

  /** Clock ticks, ordinary alert deliveries and subscriber acknowledgements. */
  lemma OutsideKeepsInv(s: State, a: Action, s': State)
    requires Inv(s) && OutsideNext(s, a, s')
    ensures Inv(s')
  {
    forall v | v in s'.workers ensures EachOk(s', v) {
      assert EachOk(s, v);
      RespectedWorkerStaysOk(s, s', s.workers[v]);
      RespectedWantStaysOk(s, s', s.workers[v]);
    }
    forall e | e in s'.sends ensures SentWasClaimed(s', e) { assert SentWasClaimed(s, e); }
    forall r | r in s'.rows ensures RowOk(s', s'.rows[r]) {
      if r in s.rows { assert RowOk(s, s.rows[r]); }
    }
  }

  /** The actions of a worker that is delivering a claimed row. */
  predicate Delivers(a: Action) {
    a.CheckSetting? || a.CheckAlert? || a.CheckLease? || a.GiveUp? || a.Send? || a.FinishSkip? || a.Record?
  }

  lemma DeliveringKeepsInv(s: State, a: Action, s': State)
    requires Inv(s) && Next(s, a, s') && Delivers(a)
    ensures Inv(s')
  {
    match a
    case Send(w, outcome) => SendKeepsInv(s, w, outcome, s');
    case FinishSkip(w) => SkipKeepsInv(s, w, s');
    case Record(w) => RecordKeepsInv(s, w, s');
    case CheckSetting(w) => CheckKeepsInv(s, a, w, s');
    case CheckAlert(w) => CheckKeepsInv(s, a, w, s');
    case CheckLease(w) => CheckKeepsInv(s, a, w, s');
    case GiveUp(w) => CheckKeepsInv(s, a, w, s');
  }

  /** Every action keeps the invariant. */
  lemma NextKeepsInv(s: State, a: Action, s': State)
    requires Inv(s) && Next(s, a, s')
    ensures Inv(s')
  {
    if Delivers(a) {
      DeliveringKeepsInv(s, a, s');
    } else if a.Tick? || a.EnqueueOther? || a.Acknowledge? {
      OutsideKeepsInv(s, a, s');
    } else {
      match a
      case ClaimRow(w, d) => ClaimKeepsInv(s, w, d, s');
      case Grant(w) => GrantKeepsInv(s, w, s');
      case CommitWriting(w, _, _) => CommitWritingKeepsInv(s, w, s');
      case CommitAdmin(w, setting) => CommitAdminKeepsInv(s, w, setting, s');
      case Begin(w) => OpenKeepsInv(s, a, w, s');
      case Request(w, _) => OpenKeepsInv(s, a, w, s');
      case StartWriting(w, _) => OpenKeepsInv(s, a, w, s');
      case StartAdmin(w, _) => OpenKeepsInv(s, a, w, s');
      case Crash(w) => OpenKeepsInv(s, a, w, s');
    }
  }
}
