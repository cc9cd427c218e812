/** The admission of AI requests as interleaved transactions.  A stamp is fixed when the
    transaction opens, so waiting for the locks lets stamps commit out of order. */
module UsageProtocol {
  import opened Optional
  import opened UsageLimits

  datatype Stage = Begun | UserLocked | GlobalLocked | Counted(own: Counts, all: Counts)

  datatype Transaction = Transaction(user: nat, feature: Feature, stamp: int, stage: Stage)

  datatype State = State(clock: int, rows: Usages, open: map<nat, Transaction>)

  datatype Action =
    | Tick(elapsed: nat)
    | Open(x: nat, user: nat, feature: Feature)
    | LockUser(x: nat)
    | LockGlobal(x: nat)
    | CountRows(x: nat)
    | Grant(x: nat)
    | Abort(x: nat)
    | Finish(row: nat, status: UsageStatus)

  predicate NeedsGlobal(l: Limits) {
    l.globalConcurrent > 0 || l.globalPerMinute > 0 || l.globalPerDay > 0
  }

  predicate HoldsUser(t: Transaction) {
    !t.stage.Begun?
  }

  predicate HoldsGlobal(t: Transaction, l: Limits) {
    t.stage.GlobalLocked? || (t.stage.Counted? && NeedsGlobal(l))
  }

  /** Locks that two transactions at the same time may hold. */
  predicate Exclusive(a: Transaction, b: Transaction, limits: Feature -> Limits) {
    && (HoldsUser(a) && HoldsUser(b) && a.feature == b.feature ==> a.user != b.user)
    && !(a.feature == b.feature && HoldsGlobal(a, limits(a.feature)) && HoldsGlobal(b, limits(b.feature)))
  }

  ghost predicate Others(s: State, x: nat, t: Transaction, limits: Feature -> Limits) {
    forall y | y in s.open && y != x :: Exclusive(s.open[y], t, limits)
  }

  function At(s: State, x: nat, t: Transaction): State {
    s.(open := s.open[x := t])
  }

  function Tally(rows: Usages, t: Transaction): Stage {
    Counted(CountsFor(rows, Own(t.user, t.feature), t.stamp, |rows|),
            CountsFor(rows, Everyone(t.feature), t.stamp, |rows|))
  }

  ghost predicate LockNext(s: State, x: nat, t: Transaction, limits: Feature -> Limits, a: Action, s': State) {
    match a
    case LockUser(_) =>
      t.stage.Begun? && Others(s, x, t.(stage := UserLocked), limits) && s' == At(s, x, t.(stage := UserLocked))
    case LockGlobal(_) =>
      t.stage.UserLocked? && NeedsGlobal(limits(t.feature)) && Others(s, x, t.(stage := GlobalLocked), limits) &&
      s' == At(s, x, t.(stage := GlobalLocked))
    case CountRows(_) =>
      (if NeedsGlobal(limits(t.feature)) then t.stage.GlobalLocked? else t.stage.UserLocked?) &&
      s' == At(s, x, t.(stage := Tally(s.rows, t)))
    case _ => false
  }

  ghost predicate GrantNext(s: State, x: nat, t: Transaction, limits: Feature -> Limits, s': State) {
    t.stage.Counted? && Refused(limits(t.feature), t.stage.own, t.stage.all).None? &&
    s' == s.(rows := s.rows + [Usage(t.user, t.feature, t.stamp, Started)], open := s.open - {x})
  }

  ghost predicate Next(s: State, limits: Feature -> Limits, a: Action, s': State) {
    match a
    case Tick(elapsed) => s' == s.(clock := s.clock + elapsed)
    case Open(x, user, feature) => x !in s.open && s' == At(s, x, Transaction(user, feature, s.clock, Begun))
    case Grant(x) => x in s.open && GrantNext(s, x, s.open[x], limits, s')
    case Abort(x) => s' == s.(open := s.open - {x})
    case Finish(r, status) =>
      r < |s.rows| && status != Started && s' == s.(rows := s.rows[r := s.rows[r].(status := status)])
    case _ => a.x in s.open && LockNext(s, a.x, s.open[a.x], limits, a, s')
  }

  // ------------------------------------------------------------------- invariant

  /** What a transaction has counted is still an upper bound for what is there. */
  predicate StillCovers(rows: Usages, t: Transaction, l: Limits) {
    t.stage.Counted? ==>
      AtMost(CountsFor(rows, Own(t.user, t.feature), t.stamp, |rows|), t.stage.own) &&
      (NeedsGlobal(l) ==> AtMost(CountsFor(rows, Everyone(t.feature), t.stamp, |rows|), t.stage.all))
  }

  ghost predicate Inv(s: State, limits: Feature -> Limits) {
    && AllAdmitted(s.rows, limits)
    && (forall r | r in s.rows :: r.stamp <= s.clock)
    && (forall x | x in s.open ::
          s.open[x].stamp <= s.clock && StillCovers(s.rows, s.open[x], limits(s.open[x].feature)))
    && (forall x, y | x in s.open && y in s.open && x != y :: Exclusive(s.open[x], s.open[y], limits))
  }

  lemma CountSkips(rows: Usages, row: Usage, q: Query)
    requires !InScope(q.scope, row)
    ensures Count(rows + [row], q, |rows| + 1) == Count(rows, q, |rows|)
  {
    CountOfPrefix(rows, rows + [row], q, |rows|);
  }

  lemma CountsSkip(rows: Usages, row: Usage, scope: Scope, stamp: int)
    requires !InScope(scope, row)
    ensures CountsFor(rows + [row], scope, stamp, |rows| + 1) == CountsFor(rows, scope, stamp, |rows|)
  {
    CountSkips(rows, row, LastMinute(scope, stamp));
    CountSkips(rows, row, Today(scope, stamp));
    CountSkips(rows, row, Running(scope, stamp));
  }

  /** Somebody else's grant is outside what this transaction has counted. */
  lemma GrantLeavesOthersCovered(rows: Usages, mine: Transaction, other: Transaction, limits: Feature -> Limits)
    requires Exclusive(other, mine, limits) && mine.stage.Counted? && StillCovers(rows, other, limits(other.feature))
    ensures StillCovers(rows + [Usage(mine.user, mine.feature, mine.stamp, Started)], other, limits(other.feature))
  {
    var row := Usage(mine.user, mine.feature, mine.stamp, Started);
    if other.stage.Counted? {
      CountsSkip(rows, row, Own(other.user, other.feature), other.stamp);
      if NeedsGlobal(limits(other.feature)) { CountsSkip(rows, row, Everyone(other.feature), other.stamp); }
    }
  }

  lemma CoveredIsAdmitted(rows: Usages, t: Transaction, limits: Feature -> Limits)
    requires AllAdmitted(rows, limits) && t.stage.Counted? && StillCovers(rows, t, limits(t.feature))
    requires Refused(limits(t.feature), t.stage.own, t.stage.all).None?
    ensures AllAdmitted(rows + [Usage(t.user, t.feature, t.stamp, Started)], limits)
  {
    GrantKeepsAdmitted(rows, limits, Usage(t.user, t.feature, t.stamp, Started));
  }

  lemma FinishLeavesCovered(rows: Usages, r: nat, status: UsageStatus, t: Transaction, l: Limits)
    requires r < |rows| && status != Started && StillCovers(rows, t, l)
    ensures StillCovers(rows[r := rows[r].(status := status)], t, l)
  {
    FinishedCounts(rows, r, status, Own(t.user, t.feature), t.stamp, |rows|);
    FinishedCounts(rows, r, status, Everyone(t.feature), t.stamp, |rows|);
  }

  lemma GrantKeepsInv(s: State, x: nat, limits: Feature -> Limits, s': State)
    requires Inv(s, limits) && x in s.open && GrantNext(s, x, s.open[x], limits, s')
    ensures Inv(s', limits)
  {
    CoveredIsAdmitted(s.rows, s.open[x], limits);
    forall y | y in s'.open ensures StillCovers(s'.rows, s'.open[y], limits(s'.open[y].feature)) {
      assert Exclusive(s.open[y], s.open[x], limits);
      GrantLeavesOthersCovered(s.rows, s.open[x], s.open[y], limits);
    }
  }

  lemma FinishKeepsInv(s: State, limits: Feature -> Limits, r: nat, status: UsageStatus, s': State)
    requires Inv(s, limits) && Next(s, limits, Finish(r, status), s')
    ensures Inv(s', limits)
  {
    FinishKeepsAdmitted(s.rows, limits, r, status);
    forall row | row in s'.rows ensures row.stamp <= s'.clock {
      assert row in s.rows || row == s.rows[r].(status := status);
    }
    forall y | y in s'.open ensures StillCovers(s'.rows, s'.open[y], limits(s'.open[y].feature)) {
      FinishLeavesCovered(s.rows, r, status, s.open[y], limits(s.open[y].feature));
    }
  }

  lemma LockKeepsInv(s: State, x: nat, limits: Feature -> Limits, a: Action, s': State)
    requires Inv(s, limits) && x in s.open && LockNext(s, x, s.open[x], limits, a, s')
    ensures Inv(s', limits)
  {}

  lemma NextKeepsInv(s: State, limits: Feature -> Limits, a: Action, s': State)
    requires Inv(s, limits) && Next(s, limits, a, s')
    ensures Inv(s', limits)
  {
    match a
    case Grant(x) => GrantKeepsInv(s, x, limits, s');
    case Finish(r, status) => FinishKeepsInv(s, limits, r, status, s');
    case Tick(_) =>
    case Open(_, _, _) =>
    case Abort(_) =>
    case _ => LockKeepsInv(s, a.x, limits, a, s');
  }

  // ------------------------------------------------------------------------ runs

  ghost predicate IsRun(states: seq<State>, limits: Feature -> Limits, actions: seq<Action>) {
    && |states| == |actions| + 1 && states[0].rows == [] && states[0].open == map[]
    && forall n | 0 <= n < |actions| :: Next(states[n], limits, actions[n], states[n + 1])
  }

  lemma {:induction false} ReachableInv(states: seq<State>, limits: Feature -> Limits, actions: seq<Action>, n: nat)
    requires IsRun(states, limits, actions) && n <= |actions|
    ensures Inv(states[n], limits)
  {
    if n > 0 {
      ReachableInv(states, limits, actions, n - 1);
      assert Next(states[n - 1], limits, actions[n - 1], states[n]);
      NextKeepsInv(states[n - 1], limits, actions[n - 1], states[n]);
    }
  }

  /** In every reachable state, for one user or for everybody: no 60-second window and no
      day holds more grants than its limit, wherever the window starts. */
  lemma EveryWindowIsBounded(states: seq<State>, limits: Feature -> Limits, actions: seq<Action>, n: nat,
                             scope: Scope, from: int, day: int)
    requires IsRun(states, limits, actions) && n <= |actions|
    ensures var rows, l := states[n].rows, limits(scope.feature);
            var perMinute := Limit(l.perMinute, l.globalPerMinute, scope);
            var perDay := Limit(l.perDay, l.globalPerDay, scope);
            (perMinute > 0 ==> Between(rows, Query(scope, from, false), from + MINUTE, |rows|) <= perMinute) &&
            (perDay > 0 ==> Between(rows, Query(scope, day * DAY, false), day * DAY + DAY - 1, |rows|) <= perDay)
  {
    ReachableInv(states, limits, actions, n);
    MinuteBound(states[n].rows, limits, scope, from);
    DayBound(states[n].rows, limits, scope, day);
  }

  lemma {:induction false} AllBefore(rows: Usages, q: Query, until: int, n: nat)
    requires n <= |rows| && forall r | r in rows :: r.stamp <= until
    ensures Between(rows, q, until, n) == Count(rows, q, n)
  {
    if n > 0 { AllBefore(rows, q, until, n - 1); }
  }

  /** At any moment, no more leases that are started and not stale than the limit. */
  lemma RunningIsBounded(states: seq<State>, limits: Feature -> Limits, actions: seq<Action>, n: nat, scope: Scope)
    requires IsRun(states, limits, actions) && n <= |actions|
    ensures var rows, l := states[n].rows, limits(scope.feature);
            var concurrent := Limit(l.concurrent, l.globalConcurrent, scope);
            concurrent > 0 ==> Count(rows, Running(scope, states[n].clock), |rows|) <= concurrent
  {
    ReachableInv(states, limits, actions, n);
    NotStaleIsBounded(states[n].rows, limits, scope, states[n].clock);
  }

  lemma NotStaleIsBounded(rows: Usages, limits: Feature -> Limits, scope: Scope, now: int)
    requires AllAdmitted(rows, limits) && forall r | r in rows :: r.stamp <= now
    ensures var concurrent := Limit(limits(scope.feature).concurrent, limits(scope.feature).globalConcurrent, scope);
            concurrent > 0 ==> Count(rows, Running(scope, now), |rows|) <= concurrent
  {
    var q := Running(scope, now);
    ConcurrentBound(rows, limits, scope, now - STALE_AFTER);
    AllBefore(rows, q, now, |rows|);
    assert q == Query(scope, now - STALE_AFTER, true) && now - STALE_AFTER + STALE_AFTER == now;
  }

  /** The same in terms of sets of rows: in every reachable state no minute, no day and no
      five minutes of running requests exceed their limits, for one user or for everybody. */
  lemma NoLimitIsExceeded(states: seq<State>, limits: Feature -> Limits, actions: seq<Action>, n: nat,
                          user: Option<nat>, feature: Feature, from: int, midnight: int)
    requires IsRun(states, limits, actions) && n <= |actions| && midnight % 86_400_000_000 == 0
    ensures var rows, l := states[n].rows, limits(feature);
            Within(GrantsBetween(rows, user, feature, from, from + 60_000_000), l.perMinute, l.globalPerMinute, user) &&
            Within(GrantsBetween(rows, user, feature, midnight, midnight + 86_399_999_999),
                   l.perDay, l.globalPerDay, user) &&
            Within(RunningBetween(rows, user, feature, from, from + 300_000_000),
                   l.concurrent, l.globalConcurrent, user)
  {
    ReachableInv(states, limits, actions, n);
    NoMinuteExceeds(states[n].rows, limits, user, feature, from);
    NoDayExceeds(states[n].rows, limits, user, feature, midnight);
    NoMomentExceeds(states[n].rows, limits, user, feature, from);
  }

  /** A transaction that nobody overtakes between its count and its commit is granted
      exactly when every limit that is on has room for it. */
  lemma UndisturbedIsGrantedIff(s: State, limits: Feature -> Limits, x: nat)
    requires x in s.open && s.open[x].stage == Tally(s.rows, s.open[x])
    ensures (exists s' :: Next(s, limits, Grant(x), s')) <==>
            HasRoom(s.rows, limits(s.open[x].feature), s.open[x].user, s.open[x].feature, s.open[x].stamp)
  {
    var t := s.open[x];
    GrantedIff(s.rows, limits(t.feature), t.user, t.feature, t.stamp);
    var granted := s.(rows := s.rows + [Usage(t.user, t.feature, t.stamp, Started)], open := s.open - {x});
    assert GrantNext(s, x, t, limits, granted) <==> Next(s, limits, Grant(x), granted);
  }

  /** With a user lock a transaction counts at once when no limit of its feature is global,
      and otherwise asks for the global lock first. */
  lemma GlobalLockIff(s: State, limits: Feature -> Limits, x: nat)
    requires x in s.open && s.open[x].stage == UserLocked
    ensures var l := limits(s.open[x].feature);
            var anyGlobal := l.globalConcurrent > 0 || l.globalPerMinute > 0 || l.globalPerDay > 0;
            ((exists s' :: Next(s, limits, CountRows(x), s')) <==> !anyGlobal) &&
            ((exists s' :: Next(s, limits, LockGlobal(x), s')) ==> anyGlobal)
  {
    var t := s.open[x];
    var counted := At(s, x, t.(stage := Tally(s.rows, t)));
    if !NeedsGlobal(limits(t.feature)) { assert Next(s, limits, CountRows(x), counted); }
  }
}
