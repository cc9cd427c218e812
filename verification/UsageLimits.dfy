/** Limits on AI requests: the usage table, what one admission counts, and why counting
    backwards from each admission bounds every window. */
module UsageLimits {
  import opened Optional

  const SECOND := 1_000_000
  const MINUTE := 60 * SECOND
  const DAY := 86_400 * SECOND
  const STALE_AFTER := 300 * SECOND

  datatype Feature = ExecutiveBriefing | Copilot

  /** A limit that is not positive is switched off. */
  datatype Limits = Limits(perMinute: int, perDay: int, concurrent: int,
                           globalPerMinute: int, globalPerDay: int, globalConcurrent: int)

  datatype UsageStatus = Started | Completed | Broken

  /** A granted request; `stamp` is the start of its transaction, in microseconds. */
  datatype Usage = Usage(user: nat, feature: Feature, stamp: int, status: UsageStatus)

  /** Rows in the order in which their transactions committed. */
  type Usages = seq<Usage>

  /** Requests of one user, or of everybody when there is no user. */
  datatype Scope = Scope(user: Option<nat>, feature: Feature)

  datatype Query = Query(scope: Scope, since: int, startedOnly: bool)

  predicate InScope(scope: Scope, row: Usage) {
    row.feature == scope.feature && (scope.user.None? || row.user == scope.user.value)
  }

  predicate Selects(q: Query, row: Usage) {
    InScope(q.scope, row) && row.stamp >= q.since && (q.startedOnly ==> row.status == Started)
  }

  function Count(rows: Usages, q: Query, n: nat): nat
    requires n <= |rows|
  {
    if n == 0 then 0 else Count(rows, q, n - 1) + if Selects(q, rows[n - 1]) then 1 else 0
  }

  function DayStart(stamp: int): int {
    stamp - stamp % DAY
  }

  function LastMinute(scope: Scope, stamp: int): Query {
    Query(scope, stamp - MINUTE, false)
  }

  function Today(scope: Scope, stamp: int): Query {
    Query(scope, DayStart(stamp), false)
  }

  function Running(scope: Scope, stamp: int): Query {
    Query(scope, stamp - STALE_AFTER, true)
  }

  /** What the counting statement returns for one scope. */
  datatype Counts = Counts(minute: nat, day: nat, active: nat)

  function CountsFor(rows: Usages, scope: Scope, stamp: int, n: nat): Counts
    requires n <= |rows|
  {
    Counts(Count(rows, LastMinute(scope, stamp), n), Count(rows, Today(scope, stamp), n),
           Count(rows, Running(scope, stamp), n))
  }

  predicate Full(limit: int, count: nat) {
    limit > 0 && count >= limit
  }

  datatype Refusal = GlobalMinute | GlobalDay | GlobalBusy | Busy | TooManyPerMinute | TooManyPerDay

  function Refused(l: Limits, own: Counts, all: Counts): Option<Refusal> {
    if Full(l.globalPerMinute, all.minute) then Some(GlobalMinute)
    else if Full(l.globalPerDay, all.day) then Some(GlobalDay)
    else if Full(l.globalConcurrent, all.active) then Some(GlobalBusy)
    else if Full(l.concurrent, own.active) then Some(Busy)
    else if Full(l.perMinute, own.minute) then Some(TooManyPerMinute)
    else if Full(l.perDay, own.day) then Some(TooManyPerDay)
    else None
  }

  function Own(user: nat, feature: Feature): Scope {
    Scope(Some(user), feature)
  }

  function Everyone(feature: Feature): Scope {
    Scope(None, feature)
  }

  // --------------------------------------------------------------- admitted rows

  predicate Below(minute: int, day: int, concurrent: int, c: Counts) {
    !Full(minute, c.minute) && !Full(day, c.day) && !Full(concurrent, c.active)
  }

  /** The rows before row `i` leave room for it. */
  predicate Admitted(rows: Usages, l: Limits, i: nat)
    requires i < |rows|
  {
    && Below(l.perMinute, l.perDay, l.concurrent, CountsFor(rows, Own(rows[i].user, rows[i].feature), rows[i].stamp, i))
    && Below(l.globalPerMinute, l.globalPerDay, l.globalConcurrent,
             CountsFor(rows, Everyone(rows[i].feature), rows[i].stamp, i))
  }

  ghost predicate AllAdmitted(rows: Usages, limits: Feature -> Limits) {
    forall i: nat | i < |rows| :: Admitted(rows, limits(rows[i].feature), i)
  }

  lemma {:induction false} CountOfPrefix(rows: Usages, more: Usages, q: Query, n: nat)
    requires n <= |rows| && rows <= more
    ensures Count(more, q, n) == Count(rows, q, n)
  {
    if n > 0 { CountOfPrefix(rows, more, q, n - 1); }
  }

  lemma {:induction false} CountAfterFinish(rows: Usages, r: nat, status: UsageStatus, q: Query, n: nat)
    requires n <= |rows| && r < |rows| && status != Started
    ensures Count(rows[r := rows[r].(status := status)], q, n) <= Count(rows, q, n)
  {
    if n > 0 { CountAfterFinish(rows, r, status, q, n - 1); }
  }

  lemma PrefixCounts(rows: Usages, more: Usages, scope: Scope, stamp: int, n: nat)
    requires n <= |rows| && rows <= more
    ensures CountsFor(more, scope, stamp, n) == CountsFor(rows, scope, stamp, n)
  {
    CountOfPrefix(rows, more, LastMinute(scope, stamp), n);
    CountOfPrefix(rows, more, Today(scope, stamp), n);
    CountOfPrefix(rows, more, Running(scope, stamp), n);
  }

  predicate AtMost(a: Counts, b: Counts) {
    a.minute <= b.minute && a.day <= b.day && a.active <= b.active
  }

  lemma FinishedCounts(rows: Usages, r: nat, status: UsageStatus, scope: Scope, stamp: int, n: nat)
    requires n <= |rows| && r < |rows| && status != Started
    ensures AtMost(CountsFor(rows[r := rows[r].(status := status)], scope, stamp, n), CountsFor(rows, scope, stamp, n))
  {
    CountAfterFinish(rows, r, status, LastMinute(scope, stamp), n);
    CountAfterFinish(rows, r, status, Today(scope, stamp), n);
    CountAfterFinish(rows, r, status, Running(scope, stamp), n);
  }

  /** A request that is not refused may be appended. */
  lemma GrantKeepsAdmitted(rows: Usages, limits: Feature -> Limits, row: Usage)
    requires AllAdmitted(rows, limits)
    requires Refused(limits(row.feature), CountsFor(rows, Own(row.user, row.feature), row.stamp, |rows|),
                     CountsFor(rows, Everyone(row.feature), row.stamp, |rows|)).None?
    ensures AllAdmitted(rows + [row], limits)
  {
    var more := rows + [row];
    forall i: nat | i < |more| ensures Admitted(more, limits(more[i].feature), i) {
      PrefixCounts(rows, more, Own(more[i].user, more[i].feature), more[i].stamp, i);
      PrefixCounts(rows, more, Everyone(more[i].feature), more[i].stamp, i);
    }
  }

  lemma FinishKeepsAdmitted(rows: Usages, limits: Feature -> Limits, r: nat, status: UsageStatus)
    requires AllAdmitted(rows, limits) && r < |rows| && status != Started
    ensures AllAdmitted(rows[r := rows[r].(status := status)], limits)
  {
    var after := rows[r := rows[r].(status := status)];
    forall i: nat | i < |after| ensures Admitted(after, limits(after[i].feature), i) {
      assert Admitted(rows, limits(rows[i].feature), i);
      FinishedCounts(rows, r, status, Own(rows[i].user, rows[i].feature), rows[i].stamp, i);
      FinishedCounts(rows, r, status, Everyone(rows[i].feature), rows[i].stamp, i);
    }
  }

  // ----------------------------------------------------- counts as sizes of sets of rows

  /** The rows of one user, or of everybody, for a feature, with stamps from a moment on and
      up to another one if there is one, and only those still started if asked for. */
  ghost function Window(rows: Usages, user: Option<nat>, feature: Feature, from: int, until: Option<int>,
                        startedOnly: bool): set<int>
  {
    set i | 0 <= i < |rows| && rows[i].feature == feature && (user == None || user == Some(rows[i].user)) &&
            from <= rows[i].stamp && (until == None || rows[i].stamp <= until.value) &&
            (startedOnly ==> rows[i].status == Started)
  }

  lemma WindowOneMore(rows: Usages, row: Usage, user: Option<nat>, feature: Feature, from: int, until: Option<int>,
                      startedOnly: bool)
    ensures |Window(rows + [row], user, feature, from, until, startedOnly)| ==
            |Window(rows, user, feature, from, until, startedOnly)| +
            if Selects(Query(Scope(user, feature), from, startedOnly), row) && (until.None? || row.stamp <= until.value)
            then 1 else 0
  {
    var before, more := Window(rows, user, feature, from, until, startedOnly), rows + [row];
    if Selects(Query(Scope(user, feature), from, startedOnly), row) && (until.None? || row.stamp <= until.value) {
      assert Window(more, user, feature, from, until, startedOnly) == before + {|rows|};
    } else {
      assert Window(more, user, feature, from, until, startedOnly) == before;
    }
  }

  lemma {:induction false} CountIsSize(rows: Usages, user: Option<nat>, feature: Feature, from: int, startedOnly: bool,
                                       n: nat)
    requires n <= |rows|
    ensures Count(rows, Query(Scope(user, feature), from, startedOnly), n) ==
            |Window(rows[..n], user, feature, from, None, startedOnly)|
  {
    if n > 0 {
      CountIsSize(rows, user, feature, from, startedOnly, n - 1);
      WindowOneMore(rows[..n - 1], rows[n - 1], user, feature, from, None, startedOnly);
      assert rows[..n] == rows[..n - 1] + [rows[n - 1]];
    } else {
      assert Window(rows[..0], user, feature, from, None, startedOnly) == {};
    }
  }

  /** The grants of the last minute, of the present day, and the recent ones still started. */
  ghost function LastMinuteRows(rows: Usages, user: Option<nat>, feature: Feature, stamp: int): set<int> {
    Window(rows, user, feature, stamp - 60_000_000, None, false)
  }

  ghost function TodaysRows(rows: Usages, user: Option<nat>, feature: Feature, stamp: int): set<int> {
    Window(rows, user, feature, stamp / 86_400_000_000 * 86_400_000_000, None, false)
  }

  ghost function RunningRows(rows: Usages, user: Option<nat>, feature: Feature, stamp: int): set<int> {
    Window(rows, user, feature, stamp - 300_000_000, None, true)
  }

  lemma CountsAreSizes(rows: Usages, user: Option<nat>, feature: Feature, stamp: int)
    ensures var c := CountsFor(rows, Scope(user, feature), stamp, |rows|);
            c.minute == |LastMinuteRows(rows, user, feature, stamp)| &&
            c.day == |TodaysRows(rows, user, feature, stamp)| &&
            c.active == |RunningRows(rows, user, feature, stamp)|
  {
    assert rows[..|rows|] == rows;
    CountIsSize(rows, user, feature, stamp - MINUTE, false, |rows|);
    CountIsSize(rows, user, feature, DayStart(stamp), false, |rows|);
    CountIsSize(rows, user, feature, stamp - STALE_AFTER, true, |rows|);
  }

  /** Every limit that is switched on leaves room for one more request. */
  ghost predicate HasRoom(rows: Usages, l: Limits, user: nat, feature: Feature, stamp: int) {
    && (l.perMinute > 0 ==> |LastMinuteRows(rows, Some(user), feature, stamp)| < l.perMinute)
    && (l.perDay > 0 ==> |TodaysRows(rows, Some(user), feature, stamp)| < l.perDay)
    && (l.concurrent > 0 ==> |RunningRows(rows, Some(user), feature, stamp)| < l.concurrent)
    && (l.globalPerMinute > 0 ==> |LastMinuteRows(rows, None, feature, stamp)| < l.globalPerMinute)
    && (l.globalPerDay > 0 ==> |TodaysRows(rows, None, feature, stamp)| < l.globalPerDay)
    && (l.globalConcurrent > 0 ==> |RunningRows(rows, None, feature, stamp)| < l.globalConcurrent)
  }

  /** The first limit in the order of the source that is on and full. */
  ghost predicate IsFirstFull(rows: Usages, l: Limits, user: nat, feature: Feature, stamp: int, r: Refusal) {
    var globalMinute := l.globalPerMinute > 0 && |LastMinuteRows(rows, None, feature, stamp)| >= l.globalPerMinute;
    var globalDay := l.globalPerDay > 0 && |TodaysRows(rows, None, feature, stamp)| >= l.globalPerDay;
    var globalBusy := l.globalConcurrent > 0 && |RunningRows(rows, None, feature, stamp)| >= l.globalConcurrent;
    var busy := l.concurrent > 0 && |RunningRows(rows, Some(user), feature, stamp)| >= l.concurrent;
    var minute := l.perMinute > 0 && |LastMinuteRows(rows, Some(user), feature, stamp)| >= l.perMinute;
    var day := l.perDay > 0 && |TodaysRows(rows, Some(user), feature, stamp)| >= l.perDay;
    match r
    case GlobalMinute => globalMinute
    case GlobalDay => globalDay && !globalMinute
    case GlobalBusy => globalBusy && !globalMinute && !globalDay
    case Busy => busy && !globalMinute && !globalDay && !globalBusy
    case TooManyPerMinute => minute && !globalMinute && !globalDay && !globalBusy && !busy
    case TooManyPerDay => day && !globalMinute && !globalDay && !globalBusy && !busy && !minute
  }

  /** A request is granted exactly when every limit that is on has room for it, and refused
      for the first one that has none. */
  lemma GrantedIff(rows: Usages, l: Limits, user: nat, feature: Feature, stamp: int)
    ensures var refusal := Refused(l, CountsFor(rows, Own(user, feature), stamp, |rows|),
                                   CountsFor(rows, Everyone(feature), stamp, |rows|));
            (refusal.None? <==> HasRoom(rows, l, user, feature, stamp)) &&
            (refusal.Some? ==> IsFirstFull(rows, l, user, feature, stamp, refusal.value))
  {
    CountsAreSizes(rows, Some(user), feature, stamp);
    CountsAreSizes(rows, None, feature, stamp);
  }

  /** The usage table; `BeginUsage` is one transaction that nobody interleaves with. */
  class UsageTable {
    var rows: Usages

    constructor ()
      ensures rows == []
    {
      rows := [];
    }

    /** Counts, refuses or grants; a lease is the number of the granted row. */
    method BeginUsage(user: nat, feature: Feature, stamp: int, ghost limits: Feature -> Limits, l: Limits)
      returns (lease: Option<nat>, refusal: Option<Refusal>)
      requires AllAdmitted(rows, limits) && l == limits(feature)
      modifies this
      ensures AllAdmitted(rows, limits)
      ensures refusal == Refused(l, CountsFor(old(rows), Own(user, feature), stamp, |old(rows)|),
                                 CountsFor(old(rows), Everyone(feature), stamp, |old(rows)|))
      ensures refusal.None? <==> HasRoom(old(rows), l, user, feature, stamp)
      ensures refusal.Some? ==> IsFirstFull(old(rows), l, user, feature, stamp, refusal.value)
      ensures refusal.Some? ==> lease.None? && rows == old(rows)
      ensures refusal.None? ==> lease == Some(|old(rows)|) && rows == old(rows) + [Usage(user, feature, stamp, Started)]
    {
      var own := CountsFor(rows, Own(user, feature), stamp, |rows|);
      var all := CountsFor(rows, Everyone(feature), stamp, |rows|);
      refusal := Refused(l, own, all);
      GrantedIff(rows, l, user, feature, stamp);
      lease := None;
      if refusal.None? {
        GrantKeepsAdmitted(rows, limits, Usage(user, feature, stamp, Started));
        lease := Some(|rows|);
        rows := rows + [Usage(user, feature, stamp, Started)];
      }
    }

    /** A lease that names no row is ignored. */
    method Finish(lease: Option<nat>, status: UsageStatus, ghost limits: Feature -> Limits)
      requires AllAdmitted(rows, limits) && status != Started
      modifies this
      ensures AllAdmitted(rows, limits)
      ensures rows == if lease.Some? && lease.value < |old(rows)|
                      then old(rows)[lease.value := old(rows)[lease.value].(status := status)] else old(rows)
    {
      if lease.Some? && lease.value < |rows| {
        FinishKeepsAdmitted(rows, limits, lease.value, status);
        rows := rows[lease.value := rows[lease.value].(status := status)];
      }
    }
  }

  // ---------------------------------------------------------------- whole windows

  /** How many selected rows carry a stamp of at most `until`. */
  function Between(rows: Usages, q: Query, until: int, n: nat): (r: nat)
    requires n <= |rows|
    ensures r <= Count(rows, q, n)
  {
    if n == 0 then 0
    else Between(rows, q, until, n - 1) + if Selects(q, rows[n - 1]) && rows[n - 1].stamp <= until then 1 else 0
  }

  lemma {:induction false} EarlierSinceCountsMore(rows: Usages, q: Query, since: int, n: nat)
    requires n <= |rows| && since <= q.since
    ensures Count(rows, q, n) <= Count(rows, q.(since := since), n)
  {
    if n > 0 { EarlierSinceCountsMore(rows, q, since, n - 1); }
  }

  /** The last row of a window to commit has counted all the others, although stamps
      need not be in commit order. */
  lemma {:induction false} LastOneCountsTheOthers(rows: Usages, q: Query, until: int, limit: int, n: nat)
    requires n <= |rows| && limit > 0
    requires forall i: nat | i < n && Selects(q, rows[i]) && rows[i].stamp <= until :: Count(rows, q, i) < limit
    ensures Between(rows, q, until, n) <= limit
  {
    if n > 0 { LastOneCountsTheOthers(rows, q, until, limit, n - 1); }
  }

  function Limit(own: int, all: int, scope: Scope): int {
    if scope.user.Some? then own else all
  }

  lemma AdmittedInScope(rows: Usages, l: Limits, i: nat, scope: Scope)
    requires i < |rows| && Admitted(rows, l, i) && InScope(scope, rows[i])
    ensures var c := CountsFor(rows, scope, rows[i].stamp, i);
            Below(Limit(l.perMinute, l.globalPerMinute, scope), Limit(l.perDay, l.globalPerDay, scope),
                  Limit(l.concurrent, l.globalConcurrent, scope), c)
  {}

  /** No 60-second window holds more grants than the limit per minute. */
  lemma MinuteBound(rows: Usages, limits: Feature -> Limits, scope: Scope, from: int)
    requires AllAdmitted(rows, limits)
    ensures var limit := Limit(limits(scope.feature).perMinute, limits(scope.feature).globalPerMinute, scope);
            limit > 0 ==> Between(rows, Query(scope, from, false), from + MINUTE, |rows|) <= limit
  {
    var q := Query(scope, from, false);
    var limit := Limit(limits(scope.feature).perMinute, limits(scope.feature).globalPerMinute, scope);
    forall i: nat | i < |rows| && Selects(q, rows[i]) && rows[i].stamp <= from + MINUTE && limit > 0
      ensures Count(rows, q, i) < limit
    {
      assert Admitted(rows, limits(rows[i].feature), i);
      AdmittedInScope(rows, limits(rows[i].feature), i, scope);
      EarlierSinceCountsMore(rows, q, rows[i].stamp - MINUTE, i);
    }
    if limit > 0 { LastOneCountsTheOthers(rows, q, from + MINUTE, limit, |rows|); }
  }

  /** No calendar day holds more grants than the limit per day. */
  lemma DayBound(rows: Usages, limits: Feature -> Limits, scope: Scope, day: int)
    requires AllAdmitted(rows, limits)
    ensures var limit := Limit(limits(scope.feature).perDay, limits(scope.feature).globalPerDay, scope);
            limit > 0 ==> Between(rows, Query(scope, day * DAY, false), day * DAY + DAY - 1, |rows|) <= limit
  {
    var q := Query(scope, day * DAY, false);
    var limit := Limit(limits(scope.feature).perDay, limits(scope.feature).globalPerDay, scope);
    forall i: nat | i < |rows| && Selects(q, rows[i]) && rows[i].stamp <= day * DAY + DAY - 1 && limit > 0
      ensures Count(rows, q, i) < limit
    {
      assert Admitted(rows, limits(rows[i].feature), i);
      AdmittedInScope(rows, limits(rows[i].feature), i, scope);
      SameDay(rows[i].stamp, day);
    }
    if limit > 0 { LastOneCountsTheOthers(rows, q, day * DAY + DAY - 1, limit, |rows|); }
  }

  lemma SameDay(stamp: int, day: int)
    requires day * DAY <= stamp < day * DAY + DAY
    ensures DayStart(stamp) == day * DAY
  {}

  /** Of the requests still running, no more than the concurrent limit carry stamps
      within five minutes of each other; in particular those that are not stale now. */
  lemma ConcurrentBound(rows: Usages, limits: Feature -> Limits, scope: Scope, from: int)
    requires AllAdmitted(rows, limits)
    ensures var limit := Limit(limits(scope.feature).concurrent, limits(scope.feature).globalConcurrent, scope);
            limit > 0 ==> Between(rows, Query(scope, from, true), from + STALE_AFTER, |rows|) <= limit
  {
    var q := Query(scope, from, true);
    var limit := Limit(limits(scope.feature).concurrent, limits(scope.feature).globalConcurrent, scope);
    forall i: nat | i < |rows| && Selects(q, rows[i]) && rows[i].stamp <= from + STALE_AFTER && limit > 0
      ensures Count(rows, q, i) < limit
    {
      assert Admitted(rows, limits(rows[i].feature), i);
      AdmittedInScope(rows, limits(rows[i].feature), i, scope);
      EarlierSinceCountsMore(rows, q, rows[i].stamp - STALE_AFTER, i);
    }
    if limit > 0 { LastOneCountsTheOthers(rows, q, from + STALE_AFTER, limit, |rows|); }
  }

  lemma {:induction false} BetweenIsSize(rows: Usages, user: Option<nat>, feature: Feature, from: int, until: int,
                                         startedOnly: bool, n: nat)
    requires n <= |rows|
    ensures Between(rows, Query(Scope(user, feature), from, startedOnly), until, n) ==
            |Window(rows[..n], user, feature, from, Some(until), startedOnly)|
  {
    if n > 0 {
      BetweenIsSize(rows, user, feature, from, until, startedOnly, n - 1);
      WindowOneMore(rows[..n - 1], rows[n - 1], user, feature, from, Some(until), startedOnly);
      assert rows[..n] == rows[..n - 1] + [rows[n - 1]];
    } else {
      assert Window(rows[..0], user, feature, from, Some(until), startedOnly) == {};
    }
  }

  /** The limit of one user, or of everybody. */
  predicate Within(size: nat, own: int, all: int, user: Option<nat>) {
    (user.Some? && own > 0 ==> size <= own) && (user.None? && all > 0 ==> size <= all)
  }

  ghost function GrantsBetween(rows: Usages, user: Option<nat>, feature: Feature, from: int, until: int): nat {
    |Window(rows, user, feature, from, Some(until), false)|
  }

  ghost function RunningBetween(rows: Usages, user: Option<nat>, feature: Feature, from: int, until: int): nat {
    |Window(rows, user, feature, from, Some(until), true)|
  }

  lemma NoMinuteExceeds(rows: Usages, limits: Feature -> Limits, user: Option<nat>, feature: Feature, from: int)
    requires AllAdmitted(rows, limits)
    ensures Within(GrantsBetween(rows, user, feature, from, from + 60_000_000),
                   limits(feature).perMinute, limits(feature).globalPerMinute, user)
  {
    assert rows[..|rows|] == rows;
    MinuteBound(rows, limits, Scope(user, feature), from);
    BetweenIsSize(rows, user, feature, from, from + MINUTE, false, |rows|);
  }

  lemma DayBoundFrom(rows: Usages, limits: Feature -> Limits, scope: Scope, midnight: int)
    requires AllAdmitted(rows, limits) && midnight % DAY == 0
    ensures var limit := Limit(limits(scope.feature).perDay, limits(scope.feature).globalPerDay, scope);
            limit > 0 ==> Between(rows, Query(scope, midnight, false), midnight + (DAY - 1), |rows|) <= limit
  {
    var day := midnight / DAY;
    assert day * DAY == midnight && day * DAY + DAY - 1 == midnight + (DAY - 1);
    DayBound(rows, limits, scope, day);
  }

  lemma NoDayExceeds(rows: Usages, limits: Feature -> Limits, user: Option<nat>, feature: Feature, midnight: int)
    requires AllAdmitted(rows, limits) && midnight % 86_400_000_000 == 0
    ensures Within(GrantsBetween(rows, user, feature, midnight, midnight + 86_399_999_999),
                   limits(feature).perDay, limits(feature).globalPerDay, user)
  {
    assert rows[..|rows|] == rows;
    DayBoundFrom(rows, limits, Scope(user, feature), midnight);
    BetweenIsSize(rows, user, feature, midnight, midnight + (DAY - 1), false, |rows|);
  }

  lemma NoMomentExceeds(rows: Usages, limits: Feature -> Limits, user: Option<nat>, feature: Feature, from: int)
    requires AllAdmitted(rows, limits)
    ensures Within(RunningBetween(rows, user, feature, from, from + 300_000_000),
                   limits(feature).concurrent, limits(feature).globalConcurrent, user)
  {
    assert rows[..|rows|] == rows;
    ConcurrentBound(rows, limits, Scope(user, feature), from);
    BetweenIsSize(rows, user, feature, from, from + STALE_AFTER, true, |rows|);
  }
}
