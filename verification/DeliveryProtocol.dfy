/** The delivery queue as a state machine: many workers over shared tables, with every
    lock explicit.  One action is one statement, one check, one external send or one
    commit; a transaction's writes appear when it commits. */
module DeliveryProtocol {
  import opened Optional

  /** Source names, numbered in the order in which the expiry sweep sorts them. */
  type Source = nat
  type Worker = nat
  type AlertId = nat
  type RowId = nat

  const MAX_DELIVERY_ATTEMPTS := 5
  const BASE_RETRY_SECONDS := 30
  const DELIVERY_LEASE_MARGIN_SECONDS := 30
  const DELIVERY_LEASE_SECONDS := 60

  datatype Channel = Email | Telegram | OtherChannel

  datatype Kind = Official | Other

  datatype QueueStatus = Pending | Failed | Sent | Skipped | DeadLetter | Acknowledged

  datatype Delivery = Delivery(kind: Kind, source: Source, alert: AlertId, channel: Channel,
                               status: QueueStatus, attempts: nat, nextAttempt: Option<int>)

  datatype Setting = Setting(enabled: bool, active: bool)

  datatype Alert = Alert(source: Source, current: bool)

  datatype Lock =
    | Advisory(source: Source)
    | SettingShare(source: Source)
    | SettingExclusive(source: Source)
    | AlertShare(alert: AlertId)
    | AlertExclusive(alert: AlertId)
    | QueueRow(row: RowId)

  /** What a worker keeps of the row it claimed; `attempt` is its fencing token. */
  datatype Claim = Claim(row: RowId, attempt: nat, kind: Kind, source: Source, alert: AlertId, channel: Channel)

  datatype Outcome = Success | Failure(retryable: bool)

  datatype Stage = Opened | SettingOk | AlertOk | Skipping | Ready | Done(outcome: Outcome)

  datatype Phase =
    | Idle
    | Claimed(claim: Claim)
    | Delivering(claim: Claim, start: int, stage: Stage)
    | Writing(due: seq<Source>)
    | Administering(source: Source)

  datatype WorkerState = WorkerState(phase: Phase, held: set<Lock>, want: Option<Lock>)

  datatype State = State(clock: int, settings: map<Source, Setting>, alerts: map<AlertId, Alert>,
                         rows: map<RowId, Delivery>, workers: map<Worker, WorkerState>, sends: seq<(RowId, nat)>)

  // -------------------------------------------------------------------- basics

  const RESTING := WorkerState(Idle, {}, None)

  predicate Conflict(l: Lock, h: Lock) {
    match l
    case Advisory(s) => h == Advisory(s)
    case SettingShare(s) => h == SettingExclusive(s)
    case SettingExclusive(s) => h == SettingExclusive(s) || h == SettingShare(s)
    case AlertShare(a) => h == AlertExclusive(a)
    case AlertExclusive(a) => h == AlertExclusive(a) || h == AlertShare(a)
    case QueueRow(d) => h == QueueRow(d)
  }

  ghost predicate Free(s: State, w: Worker, l: Lock) {
    forall v, h | v in s.workers && v != w && h in s.workers[v].held :: !Conflict(l, h)
  }

  ghost predicate Unlocked(s: State, d: RowId) {
    forall v | v in s.workers :: QueueRow(d) !in s.workers[v].held
  }

  predicate Open(row: Delivery) {
    row.status == Pending || row.status == Failed
  }

  predicate Live(s: State, source: Source) {
    source in s.settings && s.settings[source].enabled && s.settings[source].active
  }

  predicate Current(s: State, alert: AlertId) {
    alert in s.alerts && s.alerts[alert].current
  }

  function SendTimeout(c: Channel): int {
    match c case Telegram => 15 case Email => 30 case OtherChannel => 30
  }

  function Power2(n: nat): nat {
    if n == 0 then 1 else 2 * Power2(n - 1)
  }

  function RetryDelay(attempts: nat): nat {
    BASE_RETRY_SECONDS * Power2(if attempts == 0 then 0 else attempts - 1)
  }

  function With(s: State, w: Worker, ws: WorkerState): State {
    s.(workers := s.workers[w := ws])
  }

  /** The row still carries the claim's attempt number and is still undecided. */
  predicate Fenced(s: State, c: Claim) {
    c.row in s.rows && s.rows[c.row].attempts == c.attempt && Open(s.rows[c.row])
  }

  /** The extra guard of the outcome statements for official deliveries. */
  predicate Deliverable(s: State, c: Claim) {
    c.kind == Other ||
    (Current(s, c.alert) && Live(s, s.alerts[c.alert].source))
  }

  function Written(row: Delivery, outcome: Outcome, clock: int): Delivery {
    match outcome
    case Success => row.(status := Sent, nextAttempt := None)
    case Failure(retryable) =>
      if row.attempts >= MAX_DELIVERY_ATTEMPTS || !retryable
      then row.(status := DeadLetter, nextAttempt := None)
      else row.(status := Failed, nextAttempt := Some(clock + RetryDelay(row.attempts)))
  }

  // -------------------------------------------------------------------- actions

  datatype Action =
    | Tick(seconds: nat)
    | EnqueueOther(row: RowId, delivery: Delivery)
    | Acknowledge(row: RowId)
    | ClaimRow(w: Worker, row: RowId)
    | Begin(w: Worker)
    | Request(w: Worker, lock: Lock)
    | Grant(w: Worker)
    | CheckSetting(w: Worker)
    | CheckAlert(w: Worker)
    | CheckLease(w: Worker)
    | FinishSkip(w: Worker)
    | Send(w: Worker, outcome: Outcome)
    | GiveUp(w: Worker)
    | Record(w: Worker)
    | StartWriting(w: Worker, due: seq<Source>)
    | CommitWriting(w: Worker, alerts: map<AlertId, Alert>, rows: map<RowId, Delivery>)
    | StartAdmin(w: Worker, source: Source)
    | CommitAdmin(w: Worker, setting: Setting)
    | Crash(w: Worker)

  predicate Ascending(due: seq<Source>) {
    forall j, k | 0 <= j < k < |due| :: due[j] < due[k]
  }

  /** Which lock a transaction may ask for next. */
  ghost predicate MayRequest(s: State, ws: WorkerState, l: Lock) {
    && ws.want.None?
    && match ws.phase
       case Delivering(c, _, stage) =>
         if c.kind == Other then stage == Opened && ws.held == {} && l == QueueRow(c.row)
         else
           || (stage == Opened && ws.held == {} && l == Advisory(c.source))
           || (stage == Opened && ws.held == {Advisory(c.source)} && l == SettingShare(c.source))
           || (stage == SettingOk && AlertShare(c.alert) !in ws.held && l == AlertShare(c.alert))
           || ((stage == AlertOk || stage == Skipping) && QueueRow(c.row) !in ws.held && l == QueueRow(c.row))
       case Writing(due) =>
         || (exists k :: 0 <= k < |due| && l == Advisory(due[k]) && ws.held == set j | 0 <= j < k :: Advisory(due[j]))
         || (HoldsAll(ws, due) && l.SettingShare? && (forall h | h in ws.held :: h.Advisory? || h.SettingShare?))
         || (HoldsAll(ws, due) && l.AlertExclusive? && l.alert in s.alerts && s.alerts[l.alert].source in due
             && (forall h | h in ws.held :: !h.QueueRow?))
         || (HoldsAll(ws, due) && l.QueueRow? && l.row in s.rows && s.rows[l.row].kind == Official
             && s.rows[l.row].source in due)
       case Administering(source) => ws.held == {} && l == SettingExclusive(source)
       case _ => false
  }

  predicate HoldsAll(ws: WorkerState, due: seq<Source>) {
    forall source | source in due :: Advisory(source) in ws.held
  }

  /** An alert row keeps its source, and is never current again once it has been superseded. */
  predicate MayBecome(before: Alert, after: Alert) {
    after.source == before.source && (after.current ==> before.current)
  }

  /** What a persisting or expiring transaction may have changed when it commits. */
  ghost predicate WriterEffect(s: State, ws: WorkerState, due: seq<Source>, alerts: map<AlertId, Alert>,
                               rows: map<RowId, Delivery>) {
    && (forall a | a in s.alerts :: a in alerts && MayBecome(s.alerts[a], alerts[a]) &&
          (alerts[a] == s.alerts[a] || AlertExclusive(a) in ws.held))
    && (forall d | d in s.rows :: d in rows &&
          (rows[d] == s.rows[d] ||
           (QueueRow(d) in ws.held && Open(s.rows[d]) &&
            rows[d] == s.rows[d].(status := Skipped, nextAttempt := None))))
    && (forall d | d in rows && d !in s.rows :: NewOfficial(rows[d], due, alerts, s.clock))
  }

  predicate NewOfficial(row: Delivery, due: seq<Source>, alerts: map<AlertId, Alert>, clock: int) {
    && row.kind == Official && row.source in due && row.status == Pending && row.attempts == 0
    && row.alert in alerts && alerts[row.alert].source == row.source && row.nextAttempt == Some(clock)
  }

  // ---------------------------------------------------- what each action requires

  ghost predicate OutsideNext(s: State, a: Action, s': State) {
    match a
    case Tick(seconds) => s' == s.(clock := s.clock + seconds)
    case EnqueueOther(d, row) =>
      d !in s.rows && row.kind == Other && row.status == Pending && row.attempts == 0 &&
      s' == s.(rows := s.rows[d := row])
    case Acknowledge(d) =>
      d in s.rows && (s.rows[d].status == Sent || s.rows[d].status == Acknowledged) && Unlocked(s, d) &&
      s' == s.(rows := s.rows[d := s.rows[d].(status := Acknowledged)])
    case _ => false
  }

  /** A worker opens, asks or gives up; no table changes. */
  ghost predicate OpenNext(s: State, a: Action, w: Worker, ws: WorkerState, s': State) {
    match a
    case Begin(_) =>
      ws.phase.Claimed? && s' == With(s, w, WorkerState(Delivering(ws.phase.claim, s.clock, Opened), {}, None))
    case StartWriting(_, due) =>
      ws == RESTING && Ascending(due) && s' == With(s, w, WorkerState(Writing(due), {}, None))
    case StartAdmin(_, source) => ws == RESTING && s' == With(s, w, WorkerState(Administering(source), {}, None))
    case Request(_, l) => MayRequest(s, ws, l) && s' == With(s, w, ws.(want := Some(l)))
    case Crash(_) => s' == With(s, w, RESTING)
    case _ => false
  }

  ghost predicate GrantNext(s: State, w: Worker, ws: WorkerState, s': State) {
    ws.want.Some? && Free(s, w, ws.want.value) &&
    s' == With(s, w, ws.(held := ws.held + {ws.want.value}, want := None))
  }

  /** A delivering worker reads what it has locked, and decides. */
  ghost predicate CheckNext(s: State, a: Action, w: Worker, ws: WorkerState, s': State) {
    && ws.phase.Delivering? && ws.want.None?
    && var c, stage := ws.phase.claim, ws.phase.stage;
       match a
       case CheckSetting(_) =>
         && stage == Opened && c.kind == Official && SettingShare(c.source) in ws.held
         && s' == With(s, w, ws.(phase := ws.phase.(stage := if Live(s, c.source) then SettingOk else Skipping)))
       case CheckAlert(_) =>
         && stage == SettingOk && AlertShare(c.alert) in ws.held
         && s' == With(s, w, ws.(phase := ws.phase.(stage := if Current(s, c.alert) then AlertOk else Skipping)))
       case CheckLease(_) =>
         && (stage == AlertOk || (stage == Opened && c.kind == Other)) && QueueRow(c.row) in ws.held
         && s' == With(s, w, if Leased(s, c, ws.phase.start) then ws.(phase := ws.phase.(stage := Ready)) else RESTING)
       case GiveUp(_) => stage == Ready && s' == With(s, w, ws.(phase := ws.phase.(stage := Done(Failure(true)))))
       case _ => false
  }

  ghost predicate ClaimNext(s: State, w: Worker, d: RowId, s': State) {
    && d in s.rows && Open(s.rows[d]) && Unlocked(s, d)
    && s.rows[d].nextAttempt.Some? && s.rows[d].nextAttempt.value <= s.clock
    && s.rows[d].attempts < MAX_DELIVERY_ATTEMPTS
    && s' == With(s.(rows := s.rows[d := Taken(s.rows[d], s.clock)]), w,
                  WorkerState(Claimed(ClaimOf(d, s.rows[d])), {}, None))
  }

  ghost predicate SendNext(s: State, w: Worker, ws: WorkerState, outcome: Outcome, s': State) {
    && ws.phase.Delivering? && ws.phase.stage == Ready
    && s' == With(s.(sends := s.sends + [(ws.phase.claim.row, ws.phase.claim.attempt)]), w,
                  ws.(phase := ws.phase.(stage := Done(outcome))))
  }

  /** The delivering transaction writes its decision and commits. */
  ghost predicate OutcomeNext(s: State, a: Action, w: Worker, ws: WorkerState, s': State) {
    && ws.phase.Delivering? && ws.want.None?
    && var c, stage := ws.phase.claim, ws.phase.stage;
       match a
       case FinishSkip(_) =>
         && stage == Skipping && QueueRow(c.row) in ws.held
         && s' == With(if Fenced(s, c) then SkippedBy(s, c) else s, w, RESTING)
       case Record(_) => stage.Done? && s' == With(Recorded(s, c, ws.phase.start, stage.outcome), w, RESTING)
       case _ => false
  }

  ghost predicate CommitWritingNext(s: State, w: Worker, ws: WorkerState, alerts: map<AlertId, Alert>,
                                    rows: map<RowId, Delivery>, s': State)
  {
    ws.phase.Writing? && ws.want.None? && WriterEffect(s, ws, ws.phase.due, alerts, rows) &&
    s' == With(s.(alerts := alerts, rows := rows), w, RESTING)
  }

  ghost predicate CommitAdminNext(s: State, w: Worker, ws: WorkerState, setting: Setting, s': State) {
    ws.phase.Administering? && ws.want.None? && SettingExclusive(ws.phase.source) in ws.held &&
    s' == With(s.(settings := s.settings[ws.phase.source := setting]), w, RESTING)
  }

  ghost predicate Next(s: State, a: Action, s': State) {
    if a.Tick? || a.EnqueueOther? || a.Acknowledge? then OutsideNext(s, a, s')
    else
      a.w in s.workers &&
      var ws := s.workers[a.w];
      match a
      case ClaimRow(w, d) => ws == RESTING && ClaimNext(s, w, d, s')
      case Grant(w) => GrantNext(s, w, ws, s')
      case CheckSetting(w) => CheckNext(s, a, w, ws, s')
      case CheckAlert(w) => CheckNext(s, a, w, ws, s')
      case CheckLease(w) => CheckNext(s, a, w, ws, s')
      case GiveUp(w) => CheckNext(s, a, w, ws, s')
      case Send(w, outcome) => SendNext(s, w, ws, outcome, s')
      case FinishSkip(w) => OutcomeNext(s, a, w, ws, s')
      case Record(w) => OutcomeNext(s, a, w, ws, s')
      case CommitWriting(w, alerts, rows) => CommitWritingNext(s, w, ws, alerts, rows, s')
      case CommitAdmin(w, setting) => CommitAdminNext(s, w, ws, setting, s')
      case _ => OpenNext(s, a, a.w, ws, s')
  }

  function Taken(row: Delivery, clock: int): Delivery {
    row.(attempts := row.attempts + 1, nextAttempt := Some(clock + DELIVERY_LEASE_SECONDS))
  }

  function ClaimOf(d: RowId, row: Delivery): Claim {
    Claim(d, row.attempts + 1, row.kind, row.source, row.alert, row.channel)
  }

  predicate Leased(s: State, c: Claim, start: int) {
    Fenced(s, c) && s.rows[c.row].nextAttempt.Some? && s.rows[c.row].nextAttempt.value > start
  }

  function SkippedBy(s: State, c: Claim): State
    requires c.row in s.rows
  {
    s.(rows := s.rows[c.row := s.rows[c.row].(status := Skipped, nextAttempt := None)])
  }

  /** The outcome statement; when its guard fails the transaction still commits the
      lease renewal it made before the send. */
  function Recorded(s: State, c: Claim, start: int, outcome: Outcome): State {
    if c.row !in s.rows then s
    else if Fenced(s, c) && Deliverable(s, c) then
      s.(rows := s.rows[c.row := Written(s.rows[c.row], outcome, s.clock)])
    else
      var renewed := start + SendTimeout(c.channel) + DELIVERY_LEASE_MARGIN_SECONDS;
      s.(rows := s.rows[c.row := s.rows[c.row].(nextAttempt := Some(renewed))])
  }
}
