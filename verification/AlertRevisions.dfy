/** Alerts of sources other than CAP: every new payload of an alert becomes its next
    revision, and the newest one by sent time is current. */
module AlertRevisions {
  import opened Optional
  import opened CapMessages
  import CapLifecycle

  /** Which alert a row belongs to. */
  datatype AlertKey = AlertKey(source: string, alertId: string)

  datatype Notice = Notice(key: AlertKey, checksum: int, kind: Kind, declared: Status, sentAt: int,
                           expiresAt: Option<int>)

  datatype Revision = Revision(notice: Notice, number: nat, previous: Option<nat>, current: bool, status: Status)

  /** The rows of `official_alerts`; a row's id is its position. */
  type Table = seq<Revision>

  // ---------------------------------------------- what the numbers should mean

  predicate Has(t: Table, k: AlertKey, i: nat) {
    i < |t| && t[i].notice.key == k
  }

  /** How many of the first `n` rows belong to `k`. */
  function Count(t: Table, k: AlertKey, n: nat): nat
    requires n <= |t|
  {
    if n == 0 then 0 else Count(t, k, n - 1) + if t[n - 1].notice.key == k then 1 else 0
  }

  predicate Beats(t: Table, a: Notice, best: Option<nat>)
    requires best.Some? ==> best.value < |t|
  {
    best.None? || a.sentAt > t[best.value].notice.sentAt
  }

  /** The newest of the first `n` rows of `k`; among equally new ones the first to arrive. */
  function Newest(t: Table, k: AlertKey, n: nat): (best: Option<nat>)
    requires n <= |t|
    ensures best.Some? ==> best.value < n && Has(t, k, best.value)
    ensures best.Some? ==> forall i: nat | i < n && Has(t, k, i) ::
              t[i].notice.sentAt <= t[best.value].notice.sentAt &&
              (i < best.value ==> t[i].notice.sentAt < t[best.value].notice.sentAt)
    ensures best.None? ==> forall i: nat | i < n :: !Has(t, k, i)
  {
    if n == 0 then None
    else
      var best := Newest(t, k, n - 1);
      if t[n - 1].notice.key == k && Beats(t, t[n - 1].notice, best) then Some(n - 1) else best
  }

  /** Both read only the notices of the first `n` rows. */
  lemma {:induction false} PrefixDecides(t: Table, u: Table, k: AlertKey, n: nat)
    requires n <= |t| && n <= |u| && forall i | 0 <= i < n :: t[i].notice == u[i].notice
    ensures Count(t, k, n) == Count(u, k, n) && Newest(t, k, n) == Newest(u, k, n)
  {
    if n > 0 { PrefixDecides(t, u, k, n - 1); }
  }

  predicate RowOk(t: Table, i: nat)
    requires i < |t|
  {
    var k := t[i].notice.key;
    && t[i].number == Count(t, k, i) + 1
    && t[i].previous == Newest(t, k, i)
    && (t[i].current <==> Newest(t, k, |t|) == Some(i))
    && (t[i].status == Active ==> t[i].current)
  }

  predicate SamePayload(a: Notice, b: Notice) {
    a.key == b.key && a.checksum == b.checksum
  }

  /** What every statement sequence keeps. */
  ghost predicate Valid(t: Table) {
    && (forall i: nat | i < |t| :: RowOk(t, i))
    && (forall i, j | 0 <= i < j < |t| :: !SamePayload(t[i].notice, t[j].notice))
  }

  // ------------------------------------------------------------------ statements

  function FindPayload(t: Table, a: Notice, n: nat): (r: Option<nat>)
    requires n <= |t|
    ensures r.Some? ==> r.value < n && SamePayload(t[r.value].notice, a)
    ensures r.None? ==> forall i | 0 <= i < n :: !SamePayload(t[i].notice, a)
  {
    if n == 0 then None
    else if SamePayload(t[n - 1].notice, a) then Some(n - 1)
    else FindPayload(t, a, n - 1)
  }

  /** The row of `k` marked current among the first `n`. */
  function FindCurrent(t: Table, k: AlertKey, n: nat): (r: Option<nat>)
    requires n <= |t|
    ensures r.Some? ==> r.value < n && Has(t, k, r.value) && t[r.value].current
    ensures r.None? ==> forall i: nat | i < n && Has(t, k, i) :: !t[i].current
  {
    if n == 0 then None
    else if t[n - 1].notice.key == k && t[n - 1].current then Some(n - 1)
    else FindCurrent(t, k, n - 1)
  }

  function MaxRevision(t: Table, k: AlertKey, n: nat): nat
    requires n <= |t|
  {
    if n == 0 then 0
    else
      var m := MaxRevision(t, k, n - 1);
      if t[n - 1].notice.key == k && t[n - 1].number > m then t[n - 1].number else m
  }

  function Superseded(r: Revision): Revision {
    r.(current := false, status := if r.status == Active then Updated else r.status)
  }

  function ArrivalStatus(a: Notice, isCurrent: bool, now: int): Status {
    var status := CapLifecycle.CurrentStatus(a.kind, a.declared, a.expiresAt, now);
    if !isCurrent && status == Active then Updated else status
  }

  // -------------------------------------------------------------------- upserts

  predicate KnownPayload(t: Table, a: Notice) {
    exists i :: 0 <= i < |t| && SamePayload(t[i].notice, a)
  }

  /** The new row takes the next number, points at the newest row before it, and
      becomes current only when it is strictly newer. */
  ghost predicate Appended(t: Table, a: Notice, now: int, u: Table) {
    var best := Newest(t, a.key, |t|);
    var wins := Beats(t, a, best);
    && |u| == |t| + 1
    && u[|t|] == Revision(a, Count(t, a.key, |t|) + 1, best, wins, ArrivalStatus(a, wins, now))
    && forall i: nat | i < |t| :: u[i] == if wins && best == Some(i) then Superseded(t[i]) else t[i]
  }

  ghost predicate UpsertStep(t: Table, a: Notice, now: int, u: Table) {
    if KnownPayload(t, a) then u == t else Appended(t, a, now, u)
  }

  /** The largest number in use is the number of rows, because numbers are dense. */
  lemma {:induction false} MaxIsCount(t: Table, k: AlertKey, n: nat)
    requires Valid(t) && n <= |t|
    ensures MaxRevision(t, k, n) == Count(t, k, n)
  {
    if n > 0 {
      MaxIsCount(t, k, n - 1);
      assert RowOk(t, n - 1);
    }
  }

  lemma CurrentIsNewest(t: Table, k: AlertKey)
    requires Valid(t)
    ensures FindCurrent(t, k, |t|) == Newest(t, k, |t|)
  {
    var found, best := FindCurrent(t, k, |t|), Newest(t, k, |t|);
    if found.Some? { assert RowOk(t, found.value); }
    if best.Some? { assert RowOk(t, best.value); }
  }

  /** The newest row of `k` changes only when the new row belongs to `k` and wins. */
  lemma NewestAfterAppend(t: Table, a: Notice, now: int, u: Table, k: AlertKey)
    requires Appended(t, a, now, u)
    ensures Newest(u, k, |u|) == if a.key == k && Beats(t, a, Newest(t, k, |t|)) then Some(|t|) else Newest(t, k, |t|)
  {
    PrefixDecides(t, u, k, |t|);
  }

  lemma OldRowStaysOk(t: Table, a: Notice, now: int, u: Table, i: nat)
    requires Valid(t) && Appended(t, a, now, u) && i < |t|
    ensures RowOk(u, i)
  {
    var k := t[i].notice.key;
    assert RowOk(t, i);
    PrefixDecides(t, u, k, i);
    NewestAfterAppend(t, a, now, u, k);
  }

  lemma NewRowIsOk(t: Table, a: Notice, now: int, u: Table)
    requires Valid(t) && Appended(t, a, now, u)
    ensures RowOk(u, |t|)
  {
    PrefixDecides(t, u, a.key, |t|);
    NewestAfterAppend(t, a, now, u, a.key);
  }

  lemma AppendKeepsValid(t: Table, a: Notice, now: int, u: Table)
    requires Valid(t) && !KnownPayload(t, a) && Appended(t, a, now, u)
    ensures Valid(u)
  {
    forall i: nat | i < |u| ensures RowOk(u, i) {
      if i < |t| { OldRowStaysOk(t, a, now, u, i); } else { NewRowIsOk(t, a, now, u); }
    }
  }

  // --------------------------------------------------------------------- expiry

  /** The expiry statement: due current active rows of live sources become expired. */
  predicate Expires(r: Revision, now: int, live: set<string>, only: Option<set<string>>) {
    && r.notice.key.source in live && r.current && r.status == Active
    && CapLifecycle.DueBy(r.notice.expiresAt, now)
    && (only.None? || r.notice.key.source in only.value)
  }

  /** The row is current and active, and its expiry has come. */
  predicate IsDue(r: Revision, now: int) {
    r.current && r.status == Active && r.notice.expiresAt != None && r.notice.expiresAt.value <= now
  }

  /** The source is live, and among the selected ones when there is a selection. */
  predicate Selected(source: string, live: set<string>, only: Option<set<string>>) {
    match only case None => source in live case Some(chosen) => source in live * chosen
  }

  function SweptRow(r: Revision, now: int, live: set<string>, only: Option<set<string>>): Revision {
    if Expires(r, now, live, only) then r.(status := Expired) else r
  }

  ghost predicate SweepStep(t: Table, now: int, live: set<string>, only: Option<set<string>>, u: Table) {
    |u| == |t| && forall i | 0 <= i < |t| :: u[i] == SweptRow(t[i], now, live, only)
  }

  lemma SweepKeepsValid(t: Table, now: int, live: set<string>, only: Option<set<string>>, u: Table)
    requires Valid(t) && SweepStep(t, now, live, only, u)
    ensures Valid(u)
  {
    forall i: nat | i < |u| ensures RowOk(u, i) {
      assert RowOk(t, i);
      PrefixDecides(t, u, t[i].notice.key, i);
      PrefixDecides(t, u, t[i].notice.key, |t|);
    }
  }

  // ------------------------------------------------------------------ the store

  /** The row is one that the table `u` has in place of another one of `t`. */
  ghost predicate IsChanged(t: Table, u: Table, r: Revision) {
    exists i :: 0 <= i < |u| && i < |t| && u[i] == r && u[i] != t[i]
  }

  lemma ChangesPersist(t: Table, u: Table, v: Table, k: nat)
    requires |t| == |u| == |v| && k < |t| && u[k] == t[k] && forall i | 0 <= i < |u| && i != k :: v[i] == u[i]
    ensures forall r | IsChanged(t, u, r) :: IsChanged(t, v, r)
  {
    forall r | IsChanged(t, u, r) ensures IsChanged(t, v, r) {
      var i :| 0 <= i < |u| && i < |t| && u[i] == r && u[i] != t[i];
      assert v[i] == r;
    }
  }

  /** The rows of every source but CAP; a call is one transaction under the alert's lock. */
  class RevisionStore {
    var rows: Table

    constructor ()
      ensures rows == [] && Valid(rows)
    {
      rows := [];
    }

    method Upsert(a: Notice, now: int) returns (row: nat, created: bool)
      requires Valid(rows)
      modifies this
      ensures Valid(rows) && UpsertStep(old(rows), a, now, rows)
      ensures created <==> !KnownPayload(old(rows), a)
      ensures row < |rows| && SamePayload(rows[row].notice, a)
      ensures rows[row].current <==> Newest(rows, a.key, |rows|) == Some(row)
    {
      ghost var t := rows;
      var duplicate := FindPayload(rows, a, |rows|);
      if duplicate.Some? {
        assert RowOk(rows, duplicate.value);
        return duplicate.value, false;
      }
      var previous := FindCurrent(rows, a.key, |rows|);
      CurrentIsNewest(t, a.key);
      MaxIsCount(t, a.key, |t|);
      var number := MaxRevision(rows, a.key, |rows|) + 1;
      var isCurrent := true;
      if previous.Some? {
        isCurrent := a.sentAt > rows[previous.value].notice.sentAt;
        if isCurrent {
          rows := rows[previous.value := Superseded(rows[previous.value])];
        }
      }
      rows := rows + [Revision(a, number, previous, isCurrent, ArrivalStatus(a, isCurrent, now))];
      AppendKeepsValid(t, a, now, rows);
      row, created := |rows| - 1, true;
      assert RowOk(rows, row);
    }

    method Expire(now: int, live: set<string>, only: Option<set<string>>) returns (expired: seq<Revision>)
      requires Valid(rows)
      modifies this
      ensures Valid(rows) && SweepStep(old(rows), now, live, only, rows)
      ensures |rows| == |old(rows)| && forall i | 0 <= i < |rows| ::
                rows[i] == if IsDue(old(rows)[i], now) && Selected(old(rows)[i].notice.key.source, live, only)
                           then old(rows)[i].(status := Expired) else old(rows)[i]
      ensures forall i: nat | i < |rows| :: rows[i] != old(rows)[i] ==> rows[i] in expired
      ensures forall r :: r in expired ==> r.status == Expired && r.current && IsChanged(old(rows), rows, r)
    {
      ghost var t := rows;
      expired := [];
      for i := 0 to |rows|
        invariant |rows| == |t|
        invariant forall j | 0 <= j < i :: rows[j] == SweptRow(t[j], now, live, only)
        invariant forall j | i <= j < |t| :: rows[j] == t[j]
        invariant forall j: nat | j < |t| :: rows[j] != t[j] ==> rows[j] in expired
        invariant forall r :: r in expired ==> r.status == Expired && r.current && IsChanged(t, rows, r)
      {
        if Expires(rows[i], now, live, only) {
          ghost var before := rows;
          rows := rows[i := rows[i].(status := Expired)];
          expired := expired + [rows[i]];
          ChangesPersist(t, before, rows, i);
        }
      }
      SweepKeepsValid(t, now, live, only, rows);
    }
  }

  // ---------------------------------------------------------------- whole runs

  datatype Event = Arrive(notice: Notice, now: int) | Sweep(now: int, live: set<string>, only: Option<set<string>>)

  ghost predicate Step(t: Table, e: Event, u: Table) {
    match e
    case Arrive(a, now) => UpsertStep(t, a, now, u)
    case Sweep(now, live, only) => SweepStep(t, now, live, only, u)
  }

  ghost predicate IsRun(tables: seq<Table>, events: seq<Event>) {
    && |tables| == |events| + 1 && tables[0] == []
    && forall n | 0 <= n < |events| :: Step(tables[n], events[n], tables[n + 1])
  }

  ghost predicate Arrived(events: seq<Event>, n: nat, a: Notice)
    requires n <= |events|
  {
    exists i :: 0 <= i < n && events[i].Arrive? && events[i].notice == a
  }

  ghost predicate Listed(t: Table, a: Notice) {
    exists i :: 0 <= i < |t| && t[i].notice == a
  }

  lemma StepKeepsValid(t: Table, e: Event, u: Table)
    requires Valid(t) && Step(t, e, u)
    ensures Valid(u)
  {
    match e
    case Arrive(a, now) => if !KnownPayload(t, a) { AppendKeepsValid(t, a, now, u); }
    case Sweep(now, live, only) => SweepKeepsValid(t, now, live, only, u);
  }

  lemma {:induction false} ReachableIsValid(tables: seq<Table>, events: seq<Event>, n: nat)
    requires IsRun(tables, events) && n <= |events|
    ensures Valid(tables[n])
  {
    if n > 0 {
      ReachableIsValid(tables, events, n - 1);
      StepKeepsValid(tables[n - 1], events[n - 1], tables[n]);
    }
  }

  // ---------------------------------------------------------- what readers rely on

  ghost predicate Numbered(t: Table, k: AlertKey, i: nat, number: nat) {
    Has(t, k, i) && t[i].number == number
  }

  ghost predicate InUse(t: Table, k: AlertKey, number: nat) {
    exists i: nat :: Numbered(t, k, i, number)
  }

  lemma {:induction false} CountGrows(t: Table, k: AlertKey, m: nat, n: nat)
    requires m <= n <= |t|
    ensures Count(t, k, m) <= Count(t, k, n)
    ensures m < n && t[m].notice.key == k ==> Count(t, k, m) < Count(t, k, n)
  {
    if m < n { CountGrows(t, k, m, n - 1); }
  }

  lemma {:induction false} CountFinds(t: Table, k: AlertKey, n: nat, number: nat) returns (i: nat)
    requires n <= |t| && 1 <= number <= Count(t, k, n)
    ensures i < n && Has(t, k, i) && Count(t, k, i) + 1 == number
  {
    if number <= Count(t, k, n - 1) { i := CountFinds(t, k, n - 1, number); } else { i := n - 1; }
  }

  /** In every reachable state the revisions of an alert are exactly 1..n, in arrival order. */
  lemma RevisionsAreDense(tables: seq<Table>, events: seq<Event>, n: nat, k: AlertKey)
    requires IsRun(tables, events) && n <= |events|
    ensures forall i: nat, j: nat | i < j && Has(tables[n], k, i) && Has(tables[n], k, j) ::
              tables[n][i].number < tables[n][j].number
    ensures forall number: nat :: InUse(tables[n], k, number) <==> 1 <= number <= Count(tables[n], k, |tables[n]|)
  {
    var t := tables[n];
    ReachableIsValid(tables, events, n);
    forall i: nat, j: nat | i < j && Has(t, k, i) && Has(t, k, j) ensures t[i].number < t[j].number {
      assert RowOk(t, i) && RowOk(t, j);
      CountGrows(t, k, i, j);
    }
    forall number: nat ensures InUse(t, k, number) <==> 1 <= number <= Count(t, k, |t|) {
      if 1 <= number <= Count(t, k, |t|) {
        var i := CountFinds(t, k, |t|, number);
        assert RowOk(t, i);
        assert Numbered(t, k, i, number);
      }
      if i: nat :| Numbered(t, k, i, number) {
        assert RowOk(t, i);
        CountGrows(t, k, i, |t|);
      }
    }
  }

  ghost predicate IsCurrent(t: Table, k: AlertKey, i: nat) {
    Has(t, k, i) && t[i].current
  }

  /** Every alert has exactly one current row, the newest by sent time with the first
      arrival winning ties, and no other row is active. */
  lemma ExactlyOneCurrent(tables: seq<Table>, events: seq<Event>, n: nat, k: AlertKey)
    requires IsRun(tables, events) && n <= |events| && exists i: nat :: Has(tables[n], k, i)
    ensures exists c: nat :: IsCurrent(tables[n], k, c)
    ensures forall c: nat, i: nat | IsCurrent(tables[n], k, c) && Has(tables[n], k, i) && i != c ::
              var best, other := tables[n][c], tables[n][i];
              !other.current && other.status != Active && other.notice.sentAt <= best.notice.sentAt &&
              (i < c ==> other.notice.sentAt < best.notice.sentAt)
  {
    var t := tables[n];
    ReachableIsValid(tables, events, n);
    var best := Newest(t, k, |t|);
    assert best.Some?;
    assert RowOk(t, best.value) && IsCurrent(t, k, best.value);
    forall i: nat | Has(t, k, i) ensures RowOk(t, i) {}
  }

  /** Previous links point to the newest row that arrived earlier, so they have no cycle. */
  lemma PreviousPointsBack(tables: seq<Table>, events: seq<Event>, n: nat, i: nat)
    requires IsRun(tables, events) && n <= |events| && i < |tables[n]|
    ensures var t := tables[n];
            match t[i].previous
            case None => t[i].number == 1
            case Some(p) =>
              p < i && Has(t, t[i].notice.key, p) && t[p].number < t[i].number &&
              forall j: nat | j < i && Has(t, t[i].notice.key, j) :: t[j].notice.sentAt <= t[p].notice.sentAt
  {
    var t := tables[n];
    var k := t[i].notice.key;
    ReachableIsValid(tables, events, n);
    assert RowOk(t, i);
    if t[i].previous.Some? {
      assert RowOk(t, t[i].previous.value);
      CountGrows(t, k, t[i].previous.value, i);
    } else if t[i].number > 1 {
      var j := CountFinds(t, k, i, 1);
      assert false;
    }
  }

  // ------------------------------------------------------ the current row over time

  /** The newest row is the same as before, or one that has arrived since. */
  predicate NewestAdvances(t: Table, u: Table, k: AlertKey) {
    match Newest(t, k, |t|)
    case None => true
    case Some(c) => Newest(u, k, |u|).Some? && (Newest(u, k, |u|) == Some(c) || Newest(u, k, |u|).value >= |t|)
  }

  ghost predicate Extends(t: Table, u: Table) {
    |t| <= |u| && forall i | 0 <= i < |t| :: u[i].notice == t[i].notice
  }

  lemma StepAdvances(t: Table, e: Event, u: Table, k: AlertKey)
    requires Step(t, e, u)
    ensures Extends(t, u) && NewestAdvances(t, u, k)
  {
    StepKeepsNotices(t, e, u);
    if e.Arrive? && !KnownPayload(t, e.notice) {
      NewestAfterAppend(t, e.notice, e.now, u, k);
    } else {
      PrefixDecides(t, u, k, |t|);
    }
  }

  lemma {:induction false} RunAdvances(tables: seq<Table>, events: seq<Event>, m: nat, n: nat, k: AlertKey)
    requires IsRun(tables, events) && m <= n <= |events|
    ensures Extends(tables[m], tables[n]) && NewestAdvances(tables[m], tables[n], k)
    decreases n - m
  {
    if m < n {
      RunAdvances(tables, events, m, n - 1, k);
      assert Step(tables[n - 1], events[n - 1], tables[n]);
      StepAdvances(tables[n - 1], events[n - 1], tables[n], k);
    }
  }

  /** The current revision of an alert never falls. */
  lemma CurrentNeverFalls(tables: seq<Table>, events: seq<Event>, m: nat, n: nat, k: AlertKey, c: nat, d: nat)
    requires IsRun(tables, events) && m <= n <= |events|
    requires IsCurrent(tables[m], k, c) && IsCurrent(tables[n], k, d)
    ensures c <= d && tables[m][c].number <= tables[n][d].number
  {
    ReachableIsValid(tables, events, m);
    ReachableIsValid(tables, events, n);
    RunAdvances(tables, events, m, n, k);
    assert RowOk(tables[m], c) && RowOk(tables[n], d);
    PrefixDecides(tables[m], tables[n], k, c);
    CountGrows(tables[n], k, c, d);
  }

  /** A row that has been superseded is never current again. */
  lemma SupersededStays(tables: seq<Table>, events: seq<Event>, m: nat, n: nat, i: nat)
    requires IsRun(tables, events) && m <= n <= |events| && i < |tables[m]| && !tables[m][i].current
    ensures i < |tables[n]| && !tables[n][i].current
  {
    var k := tables[m][i].notice.key;
    ReachableIsValid(tables, events, m);
    ReachableIsValid(tables, events, n);
    RunAdvances(tables, events, m, n, k);
    assert Has(tables[m], k, i);
    assert RowOk(tables[m], i) && RowOk(tables[n], i);
  }

  // ------------------------------------------------- independence of arrival order

  /** A checksum stands for one payload. */
  ghost predicate OneContent(events: seq<Event>) {
    forall i, j | 0 <= i < |events| && 0 <= j < |events| && events[i].Arrive? && events[j].Arrive? &&
      SamePayload(events[i].notice, events[j].notice) :: events[i].notice == events[j].notice
  }

  lemma {:induction false} ListedExactlyArrived(tables: seq<Table>, events: seq<Event>, n: nat, a: Notice)
    requires IsRun(tables, events) && OneContent(events) && n <= |events|
    ensures Listed(tables[n], a) <==> Arrived(events, n, a)
  {
    if n > 0 {
      var t, u, e := tables[n - 1], tables[n], events[n - 1];
      assert Step(t, e, u);
      ListedExactlyArrived(tables, events, n - 1, a);
      if e.Arrive? && KnownPayload(t, e.notice) {
        var i :| 0 <= i < |t| && SamePayload(t[i].notice, e.notice);
        ListedExactlyArrived(tables, events, n - 1, t[i].notice);
        assert Listed(t, t[i].notice);
      }
      StepKeepsNotices(t, e, u);
      assert Listed(u, a) <==> Listed(t, a) || (e.Arrive? && e.notice == a);
    }
  }

  lemma StepKeepsNotices(t: Table, e: Event, u: Table)
    requires Step(t, e, u)
    ensures |t| <= |u| && forall i | 0 <= i < |t| :: u[i].notice == t[i].notice
    ensures if e.Arrive? && !KnownPayload(t, e.notice) then |u| == |t| + 1 && u[|t|].notice == e.notice else |u| == |t|
  {}

  /** The notice no other notice of its alert matches or beats. */
  ghost predicate StrictlyNewest(events: seq<Event>, a: Notice) {
    Arrived(events, |events|, a) &&
    forall b: Notice :: Arrived(events, |events|, b) && b.key == a.key && b != a ==> b.sentAt < a.sentAt
  }

  /** When one arrived notice is strictly the newest, it is the current one at the end,
      in whatever order and however often the notices arrived. */
  lemma CurrentIndependentOfOrder(tables: seq<Table>, events: seq<Event>, a: Notice, c: nat)
    requires IsRun(tables, events) && OneContent(events) && StrictlyNewest(events, a)
    requires IsCurrent(tables[|events|], a.key, c)
    ensures tables[|events|][c].notice == a
  {
    var t := tables[|events|];
    ListedExactlyArrived(tables, events, |events|, a);
    var i :| 0 <= i < |t| && t[i].notice == a;
    ExactlyOneCurrent(tables, events, |events|, a.key);
    assert Has(t, a.key, i);
    ListedExactlyArrived(tables, events, |events|, t[c].notice);
    assert Listed(t, t[c].notice);
  }

  // ------------------------------------------------------------ what statuses mean

  function ClockOf(e: Event): int {
    match e case Arrive(_, now) => now case Sweep(now, _, _) => now
  }

  /** A status says what happened to the row, at clocks up to `latest`. */
  predicate Honest(r: Revision, latest: int) {
    && (r.status == Cancelled <==> r.notice.kind == Cancel || r.notice.declared == Cancelled)
    && (r.status == Expired ==> r.notice.declared == Expired || CapLifecycle.DueBy(r.notice.expiresAt, latest))
    && (r.status == Updated ==> !r.current)
    && (r.status == Active ==> r.current)
  }

  /** In every reachable state exactly the cancelled notices are cancelled, only notices
      declared expired or past their expiry are expired, and only rows that another one
      took over from, or that arrived late, are updated. */
  lemma {:induction false} StatusesAreHonest(tables: seq<Table>, events: seq<Event>, n: nat, latest: int)
    requires IsRun(tables, events) && n <= |events| && forall i | 0 <= i < n :: ClockOf(events[i]) <= latest
    ensures forall i: nat | i < |tables[n]| :: Honest(tables[n][i], latest)
  {
    if n > 0 {
      StatusesAreHonest(tables, events, n - 1, latest);
      ReachableIsValid(tables, events, n - 1);
      assert Step(tables[n - 1], events[n - 1], tables[n]);
      StepKeepsHonest(tables[n - 1], events[n - 1], tables[n], latest);
    }
  }

  lemma StepKeepsHonest(t: Table, e: Event, u: Table, latest: int)
    requires Step(t, e, u) && ClockOf(e) <= latest && forall i: nat | i < |t| :: Honest(t[i], latest)
    ensures forall i: nat | i < |u| :: Honest(u[i], latest)
  {}

  // -------------------------------------------------- exactly which status, over runs

  /** Event `m` has stored row `i`. */
  ghost predicate StoredBy(tables: seq<Table>, events: seq<Event>, m: nat, i: nat)
    requires |tables| == |events| + 1
  {
    m < |events| && events[m].Arrive? && |tables[m]| == i && |tables[m + 1]| == i + 1
  }

  predicate IsCancelled(a: Notice) {
    a.kind == Cancel || a.declared == Cancelled
  }

  /** Event `k` is a sweep that finds row `i` current, due and selected. */
  predicate SweptBy(tables: seq<Table>, events: seq<Event>, k: nat, i: nat)
    requires |tables| == |events| + 1
  {
    && k < |events| && events[k].Sweep? && i < |tables[k]| && tables[k][i].current
    && tables[k][i].notice.expiresAt.Some? && tables[k][i].notice.expiresAt.value <= events[k].now
    && tables[k][i].notice.key.source in events[k].live
    && (events[k].only.Some? ==> tables[k][i].notice.key.source in events[k].only.value)
  }

  /** The notice was declared expired, had expired when it arrived, or a sweep has met it. */
  ghost predicate HasExpired(tables: seq<Table>, events: seq<Event>, m: nat, n: nat, i: nat)
    requires |tables| == |events| + 1 && m < |events| && events[m].Arrive?
  {
    var a := events[m].notice;
    a.declared == Expired || (a.expiresAt.Some? && a.expiresAt.value <= events[m].now) ||
    exists k: nat :: m < k < n && SweptBy(tables, events, k, i)
  }

  ghost predicate StatusFits(r: Revision, expired: bool) {
    r.status == if IsCancelled(r.notice) then Cancelled
                else if expired then Expired else if r.current then Active else Updated
  }

  lemma StoredStatusFits(t: Table, a: Notice, now: int, u: Table)
    requires UpsertStep(t, a, now, u) && |u| == |t| + 1
    ensures u[|t|].notice == a
    ensures StatusFits(u[|t|], a.declared == Expired || (a.expiresAt.Some? && a.expiresAt.value <= now))
  {}

  lemma StatusStaysFit(tables: seq<Table>, events: seq<Event>, n: nat, i: nat, expired: bool)
    requires IsRun(tables, events) && n < |events| && i < |tables[n]| && StatusFits(tables[n][i], expired)
    ensures i < |tables[n + 1]| && tables[n + 1][i].notice == tables[n][i].notice
    ensures StatusFits(tables[n + 1][i], expired || SweptBy(tables, events, n, i))
  {
    assert Step(tables[n], events[n], tables[n + 1]);
    if events[n].Sweep? {
      assert tables[n + 1][i] == SweptRow(tables[n][i], events[n].now, events[n].live, events[n].only);
    } else {
      SupersededIsNotCurrent(tables, events, n, i);
    }
  }

  lemma SupersededIsNotCurrent(tables: seq<Table>, events: seq<Event>, n: nat, i: nat)
    requires IsRun(tables, events) && n < |events| && events[n].Arrive? && i < |tables[n]|
    ensures i < |tables[n + 1]|
    ensures tables[n + 1][i] == tables[n][i] || (tables[n][i].current && tables[n + 1][i] == Superseded(tables[n][i]))
  {
    assert Step(tables[n], events[n], tables[n + 1]);
    ReachableIsValid(tables, events, n);
    assert RowOk(tables[n], i);
  }

  /** At every moment after its arrival the status of a row is: cancelled for a cancelled
      notice; otherwise expired when it was declared so, had expired on arrival, or has been
      met by a sweep while current; otherwise active or updated, by its current flag. */
  lemma {:induction false} StatusIff(tables: seq<Table>, events: seq<Event>, m: nat, n: nat, i: nat)
    requires IsRun(tables, events) && m < n <= |events| && StoredBy(tables, events, m, i)
    ensures i < |tables[n]| && tables[n][i].notice == events[m].notice
    ensures StatusFits(tables[n][i], HasExpired(tables, events, m, n, i))
    decreases n
  {
    if n == m + 1 {
      assert Step(tables[m], events[m], tables[m + 1]);
      StoredStatusFits(tables[m], events[m].notice, events[m].now, tables[n]);
    } else {
      StatusIff(tables, events, m, n - 1, i);
      StatusStaysFit(tables, events, n - 1, i, HasExpired(tables, events, m, n - 1, i));
    }
  }

  // ------------------------------------------------------- what a replay returns

  /** Row `j` does not take over from row `i`: it is older, or as old and later to arrive. */
  predicate Outranks(t: Table, i: nat, j: nat)
    requires i < |t| && j < |t|
  {
    t[j].notice.sentAt < t[i].notice.sentAt || (j > i && t[j].notice.sentAt == t[i].notice.sentAt)
  }

  ghost predicate OutranksAll(t: Table, i: nat)
    requires i < |t|
  {
    forall j: nat | Has(t, t[i].notice.key, j) && j != i :: Outranks(t, i, j)
  }

  lemma CurrentOutranksAll(t: Table, i: nat)
    requires Valid(t) && i < |t|
    ensures t[i].current <==> OutranksAll(t, i)
  {
    assert RowOk(t, i);
    var k := t[i].notice.key;
    var best := Newest(t, k, |t|);
    assert Has(t, k, i);
    if best != Some(i) {
      assert !Outranks(t, i, best.value);
    }
  }

  /** A replay returns the stored row of its payload; that row is current exactly when
      it outranks every other row of its alert. */
  lemma ReplayedRowIsCurrentIff(tables: seq<Table>, events: seq<Event>, n: nat, a: Notice)
    requires IsRun(tables, events) && n <= |events| && KnownPayload(tables[n], a)
    ensures var t, found := tables[n], FindPayload(tables[n], a, |tables[n]|);
            found.Some? && SamePayload(t[found.value].notice, a) &&
            (t[found.value].current <==> OutranksAll(t, found.value))
  {
    ReachableIsValid(tables, events, n);
    CurrentOutranksAll(tables[n], FindPayload(tables[n], a, |tables[n]|).value);
  }

  const VOLCANO := AlertKey("magma", "1")
  const OLDER := Notice(VOLCANO, 1, Alert, Active, 1, None)
  const NEWER := Notice(VOLCANO, 2, Update, Active, 2, None)
  const FIRST_ROW := Revision(OLDER, 1, None, true, Active)
  const TWO_ROWS := [Superseded(FIRST_ROW), Revision(NEWER, 2, Some(0), true, Active)]

  /** So replaying an old payload does not return the current revision. */
  lemma OldPayloadReturnsOldRow()
    ensures IsRun([[], [FIRST_ROW], TWO_ROWS], [Arrive(OLDER, 0), Arrive(NEWER, 0)])
    ensures FindPayload(TWO_ROWS, OLDER, 2) == Some(0) && !TWO_ROWS[0].current
  {
    assert Newest([], VOLCANO, 0) == None && Count([], VOLCANO, 0) == 0;
    assert Step([], Arrive(OLDER, 0), [FIRST_ROW]);
    var t := [FIRST_ROW];
    assert Newest(t, VOLCANO, 0) == None && Count(t, VOLCANO, 0) == 0;
    assert Newest(t, VOLCANO, 1) == Some(0) && Count(t, VOLCANO, 1) == 1;
    assert Step(t, Arrive(NEWER, 0), TWO_ROWS);
    assert !SamePayload(TWO_ROWS[1].notice, OLDER);
    assert FindPayload(TWO_ROWS, OLDER, 1) == Some(0);
  }
}
