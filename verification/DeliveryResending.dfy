/** Claims that can still be sent: after a requeue of their row one attempt of it can be
    sent twice, and exactly when there is such a claim. */
module DeliveryResending {
  import opened Optional
  import opened DeliveryProtocol
  import opened DeliveryInvariants
  import opened DeliverySafety
  import opened DeliveryRequeue
  import opened DeliveryHarmless

  // -------------------------------------------------------------- a waiting claim

  /** The worker has the claim, has not locked its row yet, and has met no obstacle. */
  ghost predicate Waits(s: State, w: Worker, c: Claim) {
    && w in s.workers && Claims(s.workers[w], c.row) && s.workers[w].phase.claim == c
    && QueueRow(c.row) !in s.workers[w].held
    && match s.workers[w].phase
       case Delivering(_, _, stage) =>
         stage != Skipping && WantOk(s, s.workers[w]) &&
         if c.kind == Official then OfficialOk(s, s.workers[w], c, stage) else OtherOk(s, s.workers[w], c, stage)
       case _ => s.workers[w].held == {} && s.workers[w].want.None?
  }

  /** The alert of an official claim is current, and its source is live. */
  predicate Admitted(s: State, c: Claim) {
    c.kind == Other || (Current(s, c.alert) && s.alerts[c.alert].source == c.source && Live(s, c.source))
  }

  /** No other worker has any lock. */
  ghost predicate Alone(s: State, w: Worker) {
    forall v | v in s.workers && v != w :: s.workers[v].held == {}
  }

  function StartOf(s: State, w: Worker): int
    requires w in s.workers
  {
    if s.workers[w].phase.Delivering? then s.workers[w].phase.start else s.clock
  }

  function Locks(c: Claim): set<Lock> {
    if c.kind == Other then {QueueRow(c.row)}
    else {Advisory(c.source), SettingShare(c.source), AlertShare(c.alert), QueueRow(c.row)}
  }

  /** Worker `w` of `s` has come to a stage of delivering the claim. */
  function AtStage(s: State, w: Worker, c: Claim, start: int, stage: Stage, held: set<Lock>): State {
    With(s, w, WorkerState(Delivering(c, start, stage), held, None))
  }

  function ReadyBy(s: State, w: Worker, c: Claim, start: int): State {
    AtStage(s, w, c, start, Ready, Locks(c))
  }

  // ---------------------------------------------------------- from a claim to a send

  lemma Takes(states: seq<State>, w: Worker, l: Lock) returns (longer: seq<State>)
    requires IsPath(states) && w in Last(states).workers && Free(Last(states), w, l)
    requires var s, ws := Last(states), Last(states).workers[w];
             WantOk(s, ws) && (ws.want.Some? ==> ws.want == Some(l)) && (ws.want.None? ==> MayRequest(s, ws, l))
    ensures IsPath(longer) && longer[0] == states[0]
    ensures var s, ws := Last(states), Last(states).workers[w];
            Last(longer) == With(s, w, ws.(held := ws.held + {l}, want := None))
  {
    var s, ws := Last(states), Last(states).workers[w];
    var asking, granted := With(s, w, ws.(want := Some(l))), With(s, w, ws.(held := ws.held + {l}, want := None));
    longer := states;
    if ws.want.None? { longer := Then(longer, Request(w, l), asking); }
    assert Last(longer) == asking;
    assert Free(asking, w, l);
    assert granted == With(asking, w, granted.workers[w]);
    longer := Then(longer, Grant(w), granted);
  }

  /** The locks of the source and of its setting. */
  lemma TakesSource(states: seq<State>, w: Worker, c: Claim) returns (longer: seq<State>)
    requires IsPath(states) && Waits(Last(states), w, c) && Alone(Last(states), w) && c.kind == Official
    requires Last(states).workers[w].phase.Delivering? && Last(states).workers[w].phase.stage == Opened
    ensures IsPath(longer) && longer[0] == states[0]
    ensures var s := Last(states);
            Last(longer) == AtStage(s, w, c, StartOf(s, w), Opened, {Advisory(c.source), SettingShare(c.source)})
  {
    var s, ws, start := Last(states), Last(states).workers[w], StartOf(Last(states), w);
    var one, both := {Advisory(c.source)}, {Advisory(c.source), SettingShare(c.source)};
    longer := states;
    if ws.held == {} {
      longer := Takes(states, w, Advisory(c.source));
      assert {} + one == one;
      assert Last(longer) == AtStage(s, w, c, start, Opened, one);
    }
    if SettingShare(c.source) !in ws.held {
      var s' := Last(longer);
      assert s'.workers[w].held == one;
      longer := Takes(longer, w, SettingShare(c.source));
      assert one + {SettingShare(c.source)} == both;
    } else {
      assert ws.held == both;
      assert ws.want.None?;
    }
    assert Last(longer) == AtStage(s, w, c, start, Opened, both);
  }

  lemma AgainAtStage(s: State, w: Worker, c: Claim, start: int, a: Stage, b: Stage, h: set<Lock>, i: set<Lock>)
    requires w in s.workers
    ensures AtStage(AtStage(s, w, c, start, a, h), w, c, start, b, i) == AtStage(s, w, c, start, b, i)
  {}

  lemma PassesSetting(states: seq<State>, w: Worker, c: Claim) returns (longer: seq<State>)
    requires IsPath(states) && Waits(Last(states), w, c) && Alone(Last(states), w) && c.kind == Official
    requires Last(states).workers[w].phase.Delivering? && Last(states).workers[w].phase.stage == Opened
    requires Admitted(Last(states), c)
    ensures IsPath(longer) && longer[0] == states[0]
    ensures var s := Last(states);
            Last(longer) == AtStage(s, w, c, StartOf(s, w), SettingOk, {Advisory(c.source), SettingShare(c.source)})
  {
    var s, start, held := Last(states), StartOf(Last(states), w), {Advisory(c.source), SettingShare(c.source)};
    longer := TakesSource(states, w, c);
    AgainAtStage(s, w, c, start, Opened, SettingOk, held, held);
    longer := Then(longer, CheckSetting(w), AtStage(s, w, c, start, SettingOk, held));
  }

  lemma PassesAlert(states: seq<State>, w: Worker, c: Claim) returns (longer: seq<State>)
    requires IsPath(states) && Waits(Last(states), w, c) && Alone(Last(states), w) && c.kind == Official
    requires Last(states).workers[w].phase.Delivering? && Last(states).workers[w].phase.stage == SettingOk
    requires Admitted(Last(states), c)
    ensures IsPath(longer) && longer[0] == states[0]
    ensures var s := Last(states);
            Last(longer) == AtStage(s, w, c, StartOf(s, w), AlertOk, Locks(c) - {QueueRow(c.row)})
  {
    var s, ws, start := Last(states), Last(states).workers[w], StartOf(Last(states), w);
    var held := Locks(c) - {QueueRow(c.row)};
    longer := states;
    if AlertShare(c.alert) !in ws.held {
      longer := Takes(states, w, AlertShare(c.alert));
      assert ws.held + {AlertShare(c.alert)} == held;
    } else {
      assert ws.held == held && ws.want.None?;
    }
    assert Last(longer) == AtStage(s, w, c, start, SettingOk, held);
    AgainAtStage(s, w, c, start, SettingOk, AlertOk, held, held);
    longer := Then(longer, CheckAlert(w), AtStage(s, w, c, start, AlertOk, held));
  }

  /** The last lock and the last check. */
  lemma PassesLease(states: seq<State>, w: Worker, c: Claim) returns (longer: seq<State>)
    requires IsPath(states) && Waits(Last(states), w, c) && Alone(Last(states), w)
    requires Last(states).workers[w].phase.Delivering?
    requires Last(states).workers[w].phase.stage == if c.kind == Official then AlertOk else Opened
    requires Leased(Last(states), c, StartOf(Last(states), w))
    ensures IsPath(longer) && longer[0] == states[0]
    ensures Last(longer) == ReadyBy(Last(states), w, c, StartOf(Last(states), w))
  {
    var s, ws, start := Last(states), Last(states).workers[w], StartOf(Last(states), w);
    longer := Takes(states, w, QueueRow(c.row));
    assert ws.held + {QueueRow(c.row)} == Locks(c);
    assert Last(longer) == AtStage(s, w, c, start, ws.phase.stage, Locks(c));
    AgainAtStage(s, w, c, start, ws.phase.stage, Ready, Locks(c), Locks(c));
    longer := Then(longer, CheckLease(w), ReadyBy(s, w, c, start));
  }

  /** What the stages between the begin and the last lock have in common. */
  lemma StillWaits(s: State, w: Worker, c: Claim, stage: Stage, held: set<Lock>)
    requires Waits(s, w, c) && Admitted(s, c) && c.kind == Official
    requires || (stage == SettingOk && held == {Advisory(c.source), SettingShare(c.source)})
             || (stage == AlertOk && held == Locks(c) - {QueueRow(c.row)})
    ensures var t := AtStage(s, w, c, StartOf(s, w), stage, held);
            Waits(t, w, c) && Admitted(t, c) && StartOf(t, w) == StartOf(s, w) && (Alone(s, w) ==> Alone(t, w))
  {}

  lemma OfficialIsReady(states: seq<State>, w: Worker, c: Claim) returns (longer: seq<State>)
    requires IsPath(states) && Waits(Last(states), w, c) && Alone(Last(states), w) && c.kind == Official
    requires Last(states).workers[w].phase.Delivering? && Admitted(Last(states), c)
    requires Leased(Last(states), c, StartOf(Last(states), w))
    ensures IsPath(longer) && longer[0] == states[0]
    ensures Last(longer) == ReadyBy(Last(states), w, c, StartOf(Last(states), w))
  {
    var s, ws, start := Last(states), Last(states).workers[w], StartOf(Last(states), w);
    var source, most := {Advisory(c.source), SettingShare(c.source)}, Locks(c) - {QueueRow(c.row)};
    longer := states;
    if ws.phase.stage == Opened {
      longer := PassesSetting(longer, w, c);
      StillWaits(s, w, c, SettingOk, source);
    }
    if ws.phase.stage != AlertOk {
      longer := PassesAlert(longer, w, c);
      StillWaits(s, w, c, AlertOk, most);
      AgainAtStage(s, w, c, start, SettingOk, AlertOk, source, most);
    }
    longer := PassesLease(longer, w, c);
    AgainAtStage(s, w, c, start, AlertOk, Ready, most, Locks(c));
  }

  /** A worker whose claim passes the fence goes all the way to just before its send. */
  lemma WaitingIsReady(states: seq<State>, w: Worker, c: Claim) returns (longer: seq<State>)
    requires IsPath(states) && Waits(Last(states), w, c) && Alone(Last(states), w) && Admitted(Last(states), c)
    requires Leased(Last(states), c, StartOf(Last(states), w))
    ensures IsPath(longer) && longer[0] == states[0]
    ensures Last(longer) == ReadyBy(Last(states), w, c, StartOf(Last(states), w))
  {
    var s, start := Last(states), StartOf(Last(states), w);
    longer := states;
    if s.workers[w].phase.Claimed? {
      longer := Then(longer, Begin(w), AtStage(s, w, c, start, Opened, {}));
      AgainAtStage(s, w, c, start, Opened, Ready, {}, Locks(c));
    }
    if c.kind == Official {
      longer := OfficialIsReady(longer, w, c);
    } else {
      longer := PassesLease(longer, w, c);
    }
  }

  // ------------------------------------------------------ a send, and its failure

  function SentBy(s: State, w: Worker, c: Claim, start: int): State {
    AtStage(s.(sends := s.sends + [(c.row, c.attempt)]), w, c, start, Done(Failure(true)), Locks(c))
  }

  lemma WaitingIsSent(states: seq<State>, w: Worker, c: Claim) returns (longer: seq<State>)
    requires IsPath(states) && Waits(Last(states), w, c) && Alone(Last(states), w) && Admitted(Last(states), c)
    requires Leased(Last(states), c, StartOf(Last(states), w))
    ensures IsPath(longer) && longer[0] == states[0]
    ensures Last(longer) == SentBy(Last(states), w, c, StartOf(Last(states), w))
  {
    var s, start := Last(states), StartOf(Last(states), w);
    longer := WaitingIsReady(states, w, c);
    var ready, sent := ReadyBy(s, w, c, start), SentBy(s, w, c, start);
    assert sent == With(ready.(sends := sent.sends), w, sent.workers[w]);
    longer := Then(longer, Send(w, Failure(true)), sent);
  }

  function FailedRow(row: Delivery, clock: int): Delivery {
    row.(status := Failed, nextAttempt := Some(clock + RetryDelay(row.attempts)))
  }

  /** The worker has noted a failure that may be retried, or crashed after the last attempt. */
  function ReleasedBy(s: State, w: Worker, c: Claim): State
    requires c.row in s.rows
  {
    var row := s.rows[c.row];
    var rows := if row.attempts >= MAX_DELIVERY_ATTEMPTS then s.rows else s.rows[c.row := FailedRow(row, s.clock)];
    With(s.(sends := s.sends + [(c.row, c.attempt)], rows := rows), w, RESTING)
  }

  function ReleaseOf(w: Worker, c: Claim): Action {
    if c.attempt < MAX_DELIVERY_ATTEMPTS then Record(w) else Crash(w)
  }

  lemma SentIsReleased(s: State, w: Worker, c: Claim, start: int)
    requires w in s.workers && Fenced(s, c) && Admitted(s, c)
    ensures Next(SentBy(s, w, c, start), ReleaseOf(w, c), ReleasedBy(s, w, c))
  {
    var sent, released := SentBy(s, w, c, start), ReleasedBy(s, w, c);
    if c.attempt < MAX_DELIVERY_ATTEMPTS {
      assert released == With(Recorded(sent, c, start, Failure(true)), w, RESTING);
    } else {
      assert released == With(sent, w, RESTING);
    }
  }

  // ------------------------------------------------------------- one claim, two sends

  /** Another worker has just got the claim that `w` waits with. */
  ghost predicate HeldTwice(s: State, w: Worker, v: Worker, c: Claim) {
    && w != v && Waits(s, w, c) && Alone(s, w) && Admitted(s, c) && Fenced(s, c) && c.attempt >= 1
    && v in s.workers && s.workers[v] == WorkerState(Claimed(c), {}, None) && StartOf(s, w) <= s.clock
    && s.rows[c.row].nextAttempt == Some(s.clock + DELIVERY_LEASE_SECONDS)
  }

  lemma {:induction false} PowerIsPositive(n: nat)
    ensures Power2(n) >= 1
  {
    if n > 0 { PowerIsPositive(n - 1); }
  }

  lemma OtherIsStillFenced(s: State, w: Worker, v: Worker, c: Claim)
    requires HeldTwice(s, w, v, c)
    ensures var s' := ReleasedBy(s, w, c);
            Waits(s', v, c) && Alone(s', v) && Admitted(s', c) && Leased(s', c, StartOf(s', v))
  {
    PowerIsPositive(c.attempt - 1);
    assert RetryDelay(c.attempt) == BASE_RETRY_SECONDS * Power2(c.attempt - 1) >= 30;
  }

  lemma SentAgain(s: State, w: Worker, v: Worker, c: Claim, start: int)
    requires c.row in s.rows
    ensures !NoDuplicates(SentBy(ReleasedBy(s, w, c), v, c, start).sends)
  {
    var e := (c.row, c.attempt);
    var all := s.sends + [e] + [e];
    assert all[|s.sends|] == e && all[|s.sends| + 1] == e;
  }

  lemma HeldTwiceIsSentTwice(states: seq<State>, w: Worker, v: Worker, c: Claim) returns (longer: seq<State>)
    requires IsPath(states) && HeldTwice(Last(states), w, v, c)
    ensures IsPath(longer) && longer[0] == states[0] && !NoDuplicates(Last(longer).sends)
  {
    var s := Last(states);
    longer := WaitingIsSent(states, w, c);
    SentIsReleased(s, w, c, StartOf(s, w));
    longer := Then(longer, ReleaseOf(w, c), ReleasedBy(s, w, c));
    OtherIsStillFenced(s, w, v, c);
    longer := WaitingIsSent(longer, v, c);
    SentAgain(s, w, v, c, s.clock);
  }

  // ----------------------------------------------- counting up to a claim once more

  /** The row can be claimed by the resting worker at once. */
  predicate Claimable(s: State, v: Worker, d: RowId) {
    && v in s.workers && s.workers[v] == RESTING && d in s.rows && Open(s.rows[d])
    && s.rows[d].nextAttempt.Some? && s.rows[d].nextAttempt.value <= s.clock
  }

  /** Only the clock, the row `d` and the worker `v` have changed. */
  predicate OnlyClaimed(s: State, s': State, v: Worker, d: RowId) {
    && s.clock <= s'.clock && v in s'.workers && d in s.rows && d in s'.rows
    && s' == State(s'.clock, s.settings, s.alerts, s.rows[d := s'.rows[d]], s.workers[v := s'.workers[v]], s.sends)
    && s'.rows[d] == s.rows[d].(attempts := s'.rows[d].attempts, nextAttempt := s'.rows[d].nextAttempt)
  }

  /** Worker `v` holds claim `n` of the row, freshly leased. */
  predicate HasCounted(s: State, s': State, v: Worker, d: RowId, n: nat) {
    && OnlyClaimed(s, s', v, d) && s'.rows[d].attempts == n
    && s'.rows[d].nextAttempt == Some(s'.clock + DELIVERY_LEASE_SECONDS)
    && s'.workers[v] == WorkerState(Claimed(ClaimOf(d, s.rows[d]).(attempt := n)), {}, None)
  }

  function ClaimedBy(s: State, v: Worker, d: RowId): State
    requires d in s.rows
  {
    With(s.(rows := s.rows[d := Taken(s.rows[d], s.clock)]), v, WorkerState(Claimed(ClaimOf(d, s.rows[d])), {}, None))
  }

  lemma ClaimCounts(s: State, v: Worker, d: RowId)
    requires Claimable(s, v, d) && Unlocked(s, d) && s.rows[d].attempts < MAX_DELIVERY_ATTEMPTS
    ensures Next(s, ClaimRow(v, d), ClaimedBy(s, v, d))
    ensures HasCounted(s, ClaimedBy(s, v, d), v, d, s.rows[d].attempts + 1)
  {
    assert ClaimNext(s, v, d, ClaimedBy(s, v, d));
  }

  /** The state a minute after the claiming worker has crashed. */
  function MinuteLater(s: State, v: Worker, d: RowId): State
    requires d in s.rows
  {
    With(s.(rows := s.rows[d := Taken(s.rows[d], s.clock)], clock := s.clock + DELIVERY_LEASE_SECONDS), v, RESTING)
  }

  lemma CrashedClaimRunsOut(s: State, v: Worker, d: RowId)
    requires Claimable(s, v, d) && Unlocked(s, d)
    ensures var crashed := With(ClaimedBy(s, v, d), v, RESTING);
            Next(ClaimedBy(s, v, d), Crash(v), crashed) &&
            Next(crashed, Tick(DELIVERY_LEASE_SECONDS), MinuteLater(s, v, d))
    ensures Claimable(MinuteLater(s, v, d), v, d) && Unlocked(MinuteLater(s, v, d), d)
    ensures OnlyClaimed(s, MinuteLater(s, v, d), v, d)
    ensures MinuteLater(s, v, d).rows[d].attempts == s.rows[d].attempts + 1
  {
    var later := MinuteLater(s, v, d);
    assert later == With(ClaimedBy(s, v, d), v, RESTING).(clock := later.clock);
  }

  lemma OnlyClaimedAgain(s: State, t: State, u: State, v: Worker, d: RowId, n: nat)
    requires OnlyClaimed(s, t, v, d) && HasCounted(t, u, v, d, n)
    ensures HasCounted(s, u, v, d, n)
  {
    assert s.workers[v := t.workers[v]][v := u.workers[v]] == s.workers[v := u.workers[v]];
    assert s.rows[d := t.rows[d]][d := u.rows[d]] == s.rows[d := u.rows[d]];
  }

  /** By claiming, crashing and waiting, the attempts of a row count up to any number. */
  lemma CountsUpTo(states: seq<State>, v: Worker, d: RowId, n: nat) returns (longer: seq<State>)
    requires IsPath(states) && Claimable(Last(states), v, d) && Unlocked(Last(states), d)
    requires Last(states).rows[d].attempts < n <= MAX_DELIVERY_ATTEMPTS
    ensures IsPath(longer) && longer[0] == states[0] && HasCounted(Last(states), Last(longer), v, d, n)
    decreases n - Last(states).rows[d].attempts
  {
    var s := Last(states);
    ClaimCounts(s, v, d);
    longer := Then(states, ClaimRow(v, d), ClaimedBy(s, v, d));
    if s.rows[d].attempts + 1 < n {
      CrashedClaimRunsOut(s, v, d);
      longer := Then(longer, Crash(v), With(ClaimedBy(s, v, d), v, RESTING));
      longer := Then(longer, Tick(DELIVERY_LEASE_SECONDS), MinuteLater(s, v, d));
      longer := CountsUpTo(longer, v, d, n);
      OnlyClaimedAgain(s, MinuteLater(s, v, d), Last(longer), v, d, n);
    }
  }

  // ------------------------------------------------------------- clearing the way

  /** The workers listed have crashed. */
  function Crashed(s: State, gone: set<Worker>): State {
    s.(workers := map w | w in s.workers :: if w in gone then RESTING else s.workers[w])
  }

  lemma {:induction false} OthersCrash(states: seq<State>, gone: set<Worker>) returns (longer: seq<State>)
    requires IsPath(states) && gone <= Last(states).workers.Keys
    ensures IsPath(longer) && longer[0] == states[0] && Last(longer) == Crashed(Last(states), gone)
  {
    var s := Last(states);
    if gone == {} {
      longer := states;
      assert Crashed(s, {}) == s;
    } else {
      var w :| w in gone;
      longer := OthersCrash(states, gone - {w});
      assert Crashed(s, gone) == With(Crashed(s, gone - {w}), w, RESTING);
      longer := Then(longer, Crash(w), Crashed(s, gone));
    }
  }

  const ON := Setting(true, true)

  function SwitchedOn(s: State, source: Source): State {
    s.(settings := s.settings[source := ON])
  }

  /** An administrator switches the source on. */
  lemma SourceIsSwitchedOn(states: seq<State>, w: Worker, v: Worker, source: Source) returns (longer: seq<State>)
    requires IsPath(states) && v in Last(states).workers && Last(states).workers[v] == RESTING && v != w
    requires w in Last(states).workers && Alone(Last(states), w)
    requires SettingShare(source) !in Last(states).workers[w].held
    requires SettingExclusive(source) !in Last(states).workers[w].held
    ensures IsPath(longer) && longer[0] == states[0] && Last(longer) == SwitchedOn(Last(states), source)
  {
    var s, l := Last(states), SettingExclusive(source);
    var opening := With(s, v, WorkerState(Administering(source), {}, None));
    var locked := With(s, v, WorkerState(Administering(source), {l}, None));
    longer := Then(states, StartAdmin(v, source), opening);
    longer := Takes(longer, v, l);
    assert {} + {l} == {l};
    assert Last(longer) == locked;
    assert With(SwitchedOn(locked, source), v, RESTING) == SwitchedOn(s, source);
    longer := Then(longer, CommitAdmin(v, ON), SwitchedOn(s, source));
  }

  // ------------------------------------------------------ exactly when it is harmful

  /** The claim of `w` is not blocked; the row is free to be counted up to it by `v`. */
  ghost predicate Prospect(s: State, w: Worker, v: Worker, c: Claim) {
    && Waits(s, w, c) && Alone(s, w) && v != w && Claimable(s, v, c.row) && s.rows[c.row].attempts == 0
    && c == ClaimOf(c.row, s.rows[c.row]).(attempt := c.attempt) && 1 <= c.attempt <= MAX_DELIVERY_ATTEMPTS
    && AboutIfOfficial(s, c) && !Blocked(s, s.workers[w])
  }

  predicate AboutIfOfficial(s: State, c: Claim) {
    c.kind == Official ==> AboutItsRow(s, c)
  }

  lemma UnblockedWaits(s: State, d: RowId, w: Worker)
    requires Inv(s) && MayRequeue(s, d) && w in s.workers && Claims(s.workers[w], d) && !Blocked(s, s.workers[w])
    ensures var c := s.workers[w].phase.claim;
            Waits(s, w, c) && AboutIfOfficial(s, c) && 1 <= c.attempt <= MAX_DELIVERY_ATTEMPTS &&
            c == ClaimOf(d, s.rows[d]).(attempt := c.attempt)
  {
    assert EachOk(s, w) && RowOk(s, s.rows[d]);
    assert QueueRow(d) !in s.workers[w].held;
  }

  lemma CrashedIsProspect(s: State, d: RowId, w: Worker, v: Worker, c: Claim)
    requires MayRequeue(s, d) && Waits(s, w, c) && c.row == d && v in s.workers && v != w
    requires AboutIfOfficial(s, c) && !Blocked(s, s.workers[w])
    requires c == ClaimOf(d, s.rows[d]).(attempt := c.attempt) && 1 <= c.attempt <= MAX_DELIVERY_ATTEMPTS
    ensures Prospect(Crashed(Requeued(s, d), s.workers.Keys - {w}), w, v, c)
  {}

  lemma SwitchedOnIsProspect(s: State, w: Worker, v: Worker, c: Claim)
    requires Prospect(s, w, v, c) && c.kind == Official && !Live(s, c.source)
    ensures Prospect(SwitchedOn(s, c.source), w, v, c) && Admitted(SwitchedOn(s, c.source), c)
    ensures SettingShare(c.source) !in s.workers[w].held && SettingExclusive(c.source) !in s.workers[w].held
  {}

  lemma IsAdmitted(states: seq<State>, w: Worker, v: Worker, c: Claim) returns (longer: seq<State>)
    requires IsPath(states) && Prospect(Last(states), w, v, c)
    ensures IsPath(longer) && longer[0] == states[0] && Prospect(Last(longer), w, v, c) && Admitted(Last(longer), c)
  {
    longer := states;
    if c.kind == Official && !Live(Last(states), c.source) {
      SwitchedOnIsProspect(Last(states), w, v, c);
      longer := SourceIsSwitchedOn(states, w, v, c.source);
    }
  }

  /** The clock is put forward to where the claim's delivery started. */
  function Later(s: State, w: Worker): State
    requires w in s.workers
  {
    s.(clock := if StartOf(s, w) > s.clock then StartOf(s, w) else s.clock)
  }

  lemma LaterIsProspect(s: State, w: Worker, v: Worker, c: Claim)
    requires Prospect(s, w, v, c) && Admitted(s, c)
    ensures Prospect(Later(s, w), w, v, c) && Admitted(Later(s, w), c) && Unlocked(Later(s, w), c.row)
    ensures StartOf(Later(s, w), w) <= Later(s, w).clock
  {}

  lemma CountedIsHeldTwice(s: State, s': State, w: Worker, v: Worker, c: Claim)
    requires Prospect(s, w, v, c) && Admitted(s, c) && StartOf(s, w) <= s.clock
    requires HasCounted(s, s', v, c.row, c.attempt)
    ensures HeldTwice(s', w, v, c)
  {}

  /** From a claim that is not blocked the requeue leads to one attempt being sent twice. */
  lemma UnblockedIsSentTwice(s: State, d: RowId, w: Worker, v: Worker) returns (states: seq<State>)
    requires Inv(s) && MayRequeue(s, d) && v in s.workers && v != w
    requires w in s.workers && Claims(s.workers[w], d) && !Blocked(s, s.workers[w])
    ensures IsPath(states) && states[0] == Requeued(s, d) && !NoDuplicates(Last(states).sends)
  {
    var c := s.workers[w].phase.claim;
    UnblockedWaits(s, d, w);
    CrashedIsProspect(s, d, w, v, c);
    states := OthersCrash([Requeued(s, d)], s.workers.Keys - {w});
    states := IsAdmitted(states, w, v, c);
    var s1 := Last(states);
    LaterIsProspect(s1, w, v, c);
    states := Then(states, Tick(Later(s1, w).clock - s1.clock), Later(s1, w));
    states := CountsUpTo(states, v, d, c.attempt);
    CountedIsHeldTwice(Later(s1, w), Last(states), w, v, c);
    states := HeldTwiceIsSentTwice(states, w, v, c);
  }

  /** With two workers or more, a requeue can lead to one attempt being sent twice exactly
      when some worker holds a claim of the row that is not blocked: of an official alert
      only one that is current, whose delivery has not been found blocked, and whose source,
      once the worker has locked its setting, is live. */
  lemma RequeueDuplicatesIff(s: State, d: RowId, x: Worker, y: Worker)
    requires Inv(s) && MayRequeue(s, d) && x in s.workers && y in s.workers && x != y
    ensures LeadsToDuplicate(Requeued(s, d)) <==>
            exists w :: w in s.workers && Claims(s.workers[w], d) && !Blocked(s, s.workers[w])
  {
    if w :| w in s.workers && Claims(s.workers[w], d) && !Blocked(s, s.workers[w]) {
      var states := UnblockedIsSentTwice(s, d, w, if w == x then y else x);
      assert LeadsToDuplicate(Requeued(s, d));
    } else {
      BlockedClaimsAreHarmless(s, d);
    }
  }

  /** While the alert is current and its source live, only a worker that has already found
      the delivery blocked holds a harmless claim. */
  lemma LiveRequeueDuplicatesIff(s: State, d: RowId, x: Worker, y: Worker)
    requires Inv(s) && MayRequeue(s, d) && x in s.workers && y in s.workers && x != y
    requires s.rows[d].kind == Official ==> Current(s, s.rows[d].alert) && Live(s, s.rows[d].source)
    ensures LeadsToDuplicate(Requeued(s, d)) <==>
            exists w :: w in s.workers && Claims(s.workers[w], d) && !IsSkipping(s.workers[w])
  {
    RequeueDuplicatesIff(s, d, x, y);
    forall w | w in s.workers && Claims(s.workers[w], d)
      ensures Blocked(s, s.workers[w]) <==> IsSkipping(s.workers[w])
    {
      assert EachOk(s, w);
    }
  }

  predicate IsSkipping(ws: WorkerState) {
    ws.phase.Delivering? && ws.phase.stage == Skipping
  }

  // ------------------------------------- a stalled worker, and a row that failed since

  function Queued(kind: Kind): Delivery {
    Delivery(kind, 0, 0, Email, Pending, 0, Some(0))
  }

  /** One current alert of one live source, one queued row, and two workers. */
  function Start(kind: Kind): State {
    State(0, map[0 := ON], map[0 := Alert(0, true)], map[0 := Queued(kind)], map[0 := RESTING, 1 := RESTING], [])
  }

  function ClaimNumber(kind: Kind, attempt: nat): Claim {
    Claim(0, attempt, kind, 0, 0, Email)
  }

  /** The first worker has its claim since the time 0, the second one its own since 60. */
  function BothHaveClaims(kind: Kind): State {
    var first, second := Claimed(ClaimNumber(kind, 1)), Claimed(ClaimNumber(kind, 2));
    Start(kind).(clock := 60, rows := map[0 := Queued(kind).(attempts := 2, nextAttempt := Some(120))],
                 workers := map[0 := WorkerState(first, {}, None), 1 := WorkerState(second, {}, None)])
  }

  lemma BothClaim(kind: Kind) returns (states: seq<State>)
    ensures IsPath(states) && states[0] == Start(kind) && Last(states) == BothHaveClaims(kind)
  {
    var s0 := Start(kind);
    ClaimCounts(s0, 0, 0);
    var s1 := ClaimedBy(s0, 0, 0);
    states := Then([s0], ClaimRow(0, 0), s1);
    var s2 := s1.(clock := 60);
    states := Then(states, Tick(60), s2);
    ClaimCounts(s2, 1, 0);
    assert ClaimedBy(s2, 1, 0) == BothHaveClaims(kind);
    states := Then(states, ClaimRow(1, 0), BothHaveClaims(kind));
  }

  /** The second worker has given up before it sent anything. */
  function SecondHasFailed(kind: Kind): State {
    var s := BothHaveClaims(kind);
    With(s.(rows := map[0 := FailedRow(s.rows[0], 60)]), 1, RESTING)
  }

  lemma SecondRecords(kind: Kind)
    ensures var s, c := BothHaveClaims(kind), ClaimNumber(kind, 2);
            Next(AtStage(s, 1, c, 60, Done(Failure(true)), Locks(c)), Record(1), SecondHasFailed(kind))
  {
    var s, c := BothHaveClaims(kind), ClaimNumber(kind, 2);
    var quit := AtStage(s, 1, c, 60, Done(Failure(true)), Locks(c));
    assert SecondHasFailed(kind) == With(Recorded(quit, c, 60, Failure(true)), 1, RESTING);
  }

  lemma SecondFails(states: seq<State>, kind: Kind) returns (longer: seq<State>)
    requires IsPath(states) && Last(states) == BothHaveClaims(kind)
    ensures IsPath(longer) && longer[0] == states[0] && Last(longer) == SecondHasFailed(kind)
  {
    var s, c := BothHaveClaims(kind), ClaimNumber(kind, 2);
    longer := WaitingIsReady(states, 1, c);
    AgainAtStage(s, 1, c, 60, Ready, Done(Failure(true)), Locks(c), Locks(c));
    longer := Then(longer, GiveUp(1), AtStage(s, 1, c, 60, Done(Failure(true)), Locks(c)));
    SecondRecords(kind);
    longer := Then(longer, Record(1), SecondHasFailed(kind));
  }

  /** A path from the start to a state in which the first worker has its claim and the row,
      of either kind, has failed. */
  lemma StaleClaimIsReachable(kind: Kind) returns (states: seq<State>)
    ensures IsPath(states) && Init(states[0]) && Last(states) == SecondHasFailed(kind)
    ensures var s := SecondHasFailed(kind);
            MayRequeue(s, 0) && s.rows[0].kind == kind && s.sends == [] &&
            Claims(s.workers[0], 0) && !Blocked(s, s.workers[0])
  {
    states := BothClaim(kind);
    states := SecondFails(states, kind);
  }

  /** With a requeue at that point the path goes on until one attempt is sent twice. */
  lemma DuplicateSendIsReachable(kind: Kind) returns (before: seq<State>, after: seq<State>)
    ensures IsPath(before) && Init(before[0]) && MayRequeue(Last(before), 0) && Last(before).rows[0].kind == kind
    ensures IsPath(after) && after[0] == Requeued(Last(before), 0) && Last(before).sends == []
    ensures !NoDuplicates(Last(after).sends)
  {
    before := StaleClaimIsReachable(kind);
    InitIsSafe(before[0]);
    PathKeepsInv(before, |before| - 1);
    after := UnblockedIsSentTwice(SecondHasFailed(kind), 0, 0, 1);
  }
}
