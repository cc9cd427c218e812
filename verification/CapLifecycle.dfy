/** Reconciliation of CAP alert rows: one upsert rewrites the whole lifecycle that the
    incoming message belongs to, statement by statement. */
module CapLifecycle {
  import opened Optional
  import opened CapMessages
  import opened Components
  import opened ReferenceGraph

  /** `source_alert_id`: the hash of a canonical identity (injective), or one of the two
      placeholders a row carries inside a transaction. */
  datatype Key = CapKey(root: Identity) | PendingKey(checksum: int) | ParkedKey(rowId: nat)

  datatype Row = Row(message: Message, key: Key, revision: nat, previous: Option<nat>, current: bool, status: Status)

  /** The rows of the CAP source; a row's id is its position. */
  type Table = seq<Row>

  // ------------------------------------------------------------------ statuses

  function DueBy(expiresAt: Option<int>, now: int): bool {
    expiresAt.Some? && expiresAt.value <= now
  }

  function CurrentStatus(kind: Kind, declared: Status, expiresAt: Option<int>, now: int): Status {
    if kind == Cancel || declared == Cancelled then Cancelled
    else if declared == Expired || DueBy(expiresAt, now) then Expired
    else Active
  }

  function ReconciledStatus(m: Message, isCurrent: bool, now: int): Status {
    if m.kind == Cancel then Cancelled
    else if DueBy(m.expiresAt, now) then Expired
    else if isCurrent then Active else Updated
  }

  // -------------------------------------------------------- single statements

  function PendingRow(m: Message, now: int): Row {
    Row(m, PendingKey(m.checksum), 1, None, false, CurrentStatus(m.kind, m.declared, m.expiresAt, now))
  }

  ghost predicate HasIdentity(t: Table, x: Identity) {
    exists i :: 0 <= i < |t| && t[i].message.id == x
  }

  /** The table once the incoming message is stored, if its identity is new. */
  ghost function Inserted(t: Table, m: Message, now: int): Table {
    if HasIdentity(t, m.id) then t else t + [PendingRow(m, now)]
  }

  function Parked(t: Table, i: nat): Table
    requires i < |t|
  {
    t[i := t[i].(key := ParkedKey(i), revision := 1, previous := None, current := false)]
  }

  predicate Rows(t: Table, order: seq<nat>) {
    forall k | 0 <= k < |order| :: order[k] < |t|
  }

  /** The final values of the row for `m` at position `k` of the lifecycle `order`. */
  function FinalRow(m: Message, order: seq<nat>, root: Identity, now: int, k: nat): Row
    requires k < |order|
  {
    Row(m, CapKey(root), k + 1, if k == 0 then None else Some(order[k - 1]),
        k + 1 == |order|, ReconciledStatus(m, k + 1 == |order|, now))
  }

  /** The table after the first `n` statements of the first loop. */
  function AfterParking(t: Table, order: seq<nat>, n: nat): (u: Table)
    requires Rows(t, order) && n <= |order|
    ensures |u| == |t|
  {
    if n == 0 then t else Parked(AfterParking(t, order, n - 1), order[n - 1])
  }

  /** The table after the first `n` statements of the second loop. */
  function AfterRenumbering(t: Table, order: seq<nat>, root: Identity, now: int, n: nat): (u: Table)
    requires Rows(t, order) && n <= |order|
    ensures |u| == |t|
  {
    if n == 0 then t
    else
      var u := AfterRenumbering(t, order, root, now, n - 1);
      u[order[n - 1] := FinalRow(u[order[n - 1]].message, order, root, now, n - 1)]
  }

  // ------------------------------------------------------------- whole upserts

  ghost function Stored(t: Table): set<Message> {
    set i | 0 <= i < |t| :: t[i].message
  }

  function Messages(t: Table): (ms: seq<Message>)
    ensures SetOf(ms) == Stored(t)
  {
    var ms := seq(|t|, i requires 0 <= i < |t| => t[i].message);
    assert forall i | 0 <= i < |t| :: ms[i] == t[i].message && ms[i] in ms;
    ms
  }

  /** Rows in strictly chronological order, so no row occurs twice. */
  ghost predicate Sorted(t: Table, order: seq<nat>) {
    Rows(t, order) && forall j, k | 0 <= j < k < |order| :: Before(t[order[j]].message, t[order[k]].message)
  }

  /** `order` lists exactly the rows connected to `x`, in chronological order. */
  ghost predicate LifecycleOrder(t: Table, es: Arrows, x: Identity, order: seq<nat>) {
    && Sorted(t, order)
    && (forall i: nat | i < |t| :: i in order <==> Connected(es, x, t[i].message.id))
  }

  /** One upsert of `m` at time `now` turns `t` into `u`. */
  ghost predicate UpsertWith(t: Table, m: Message, now: int, u: Table, order: seq<nat>, root: Identity) {
    var base := Inserted(t, m, now);
    && LifecycleOrder(base, ArrowsOf(Stored(base) + {m}), m.id, order)
    && Canonical(Stored(base) + {m}, m.id, root)
    && u == AfterRenumbering(AfterParking(base, order, |order|), order, root, now, |order|)
  }

  ghost predicate UpsertStep(t: Table, m: Message, now: int, u: Table) {
    exists order, root :: UpsertWith(t, m, now, u, order, root)
  }

  ghost predicate UniqueIds(t: Table) {
    forall i, j | 0 <= i < j < |t| :: t[i].message.id != t[j].message.id
  }

  // ------------------------------------------------------------------- sorting

  ghost predicate Distinct(order: seq<nat>) {
    forall j, k | 0 <= j < k < |order| :: order[j] != order[k]
  }

  /** The rows of a component, in table order. */
  function ComponentRows(t: Table, component: set<Identity>, n: nat): (ids: seq<nat>)
    requires n <= |t|
    ensures forall i: nat :: i in ids <==> i < n && t[i].message.id in component
    ensures Rows(t, ids) && Distinct(ids)
  {
    if n == 0 then []
    else
      var ids := ComponentRows(t, component, n - 1);
      assert n - 1 !in ids;
      if t[n - 1].message.id in component then ids + [n - 1] else ids
  }

  function InsertSorted(t: Table, i: nat, order: seq<nat>): (r: seq<nat>)
    requires i < |t| && Rows(t, order)
    ensures forall j: nat :: j in r <==> j == i || j in order
    ensures Rows(t, r)
  {
    if order == [] then [i]
    else if Before(t[i].message, t[order[0]].message) then [i] + order
    else
      var rest := InsertSorted(t, i, order[1..]);
      assert order == [order[0]] + order[1..];
      [order[0]] + rest
  }

  function SortRows(t: Table, ids: seq<nat>): (order: seq<nat>)
    requires Rows(t, ids)
    ensures forall j: nat :: j in order <==> j in ids
    ensures Rows(t, order)
  {
    if ids == [] then []
    else
      assert ids == [ids[0]] + ids[1..];
      InsertSorted(t, ids[0], SortRows(t, ids[1..]))
  }

  lemma {:induction false} InsertSortedKeepsOrder(t: Table, i: nat, order: seq<nat>)
    requires i < |t| && UniqueIds(t) && Sorted(t, order) && i !in order
    ensures Sorted(t, InsertSorted(t, i, order))
  {
    if order != [] {
      var a, b := t[i].message, t[order[0]].message;
      BeforeIsStrictOrder(a, b, b);
      if Before(a, b) {
        forall k | 0 < k < |order| ensures Before(a, t[order[k]].message) {
          BeforeIsStrictOrder(a, b, t[order[k]].message);
        }
      } else {
        assert a.id != b.id;
        InsertSortedKeepsOrder(t, i, order[1..]);
        var rest := InsertSorted(t, i, order[1..]);
        forall k | 0 <= k < |rest| ensures Before(b, t[rest[k]].message) {
          assert rest[k] in rest;
          if rest[k] != i {
            var j :| 0 <= j < |order| - 1 && order[1..][j] == rest[k];
            assert order[j + 1] == rest[k];
          }
        }
      }
    }
  }

  lemma {:induction false} SortRowsSorts(t: Table, ids: seq<nat>)
    requires Rows(t, ids) && UniqueIds(t) && Distinct(ids)
    ensures Sorted(t, SortRows(t, ids))
  {
    if ids != [] {
      assert ids == [ids[0]] + ids[1..];
      SortRowsSorts(t, ids[1..]);
      InsertSortedKeepsOrder(t, ids[0], SortRows(t, ids[1..]));
    }
  }

  // ------------------------------------------------- what the statements add up to

  lemma SortedIsDistinct(t: Table, order: seq<nat>)
    requires Sorted(t, order)
    ensures Distinct(order)
  {}

  predicate ParkedAt(t: Table, u: Table, i: nat)
    requires i < |t| == |u|
  {
    u[i] == t[i].(key := ParkedKey(i), revision := 1, previous := None, current := false)
  }

  lemma {:induction false} ParkingEffect(t: Table, order: seq<nat>, n: nat)
    requires Rows(t, order) && Distinct(order) && n <= |order|
    ensures var u := AfterParking(t, order, n);
            (forall k | 0 <= k < n :: ParkedAt(t, u, order[k])) &&
            (forall i: nat | i < |t| && i !in order[..n] :: u[i] == t[i])
  {
    if n > 0 {
      ParkingEffect(t, order, n - 1);
      assert order[..n] == order[..n - 1] + [order[n - 1]];
    }
  }

  predicate FinalAt(t: Table, u: Table, order: seq<nat>, root: Identity, now: int, k: nat)
    requires |t| == |u| && Rows(t, order) && k < |order|
  {
    u[order[k]] == FinalRow(t[order[k]].message, order, root, now, k)
  }

  lemma {:induction false} RenumberingEffect(t: Table, order: seq<nat>, root: Identity, now: int, n: nat)
    requires Rows(t, order) && Distinct(order) && n <= |order|
    ensures var u := AfterRenumbering(t, order, root, now, n);
            (forall k | 0 <= k < n :: FinalAt(t, u, order, root, now, k)) &&
            (forall i: nat | i < |t| && i !in order[..n] :: u[i] == t[i])
  {
    if n > 0 {
      var u, v := AfterRenumbering(t, order, root, now, n), AfterRenumbering(t, order, root, now, n - 1);
      RenumberingEffect(t, order, root, now, n - 1);
      assert order[..n] == order[..n - 1] + [order[n - 1]];
      assert v[order[n - 1]] == t[order[n - 1]];
      forall k | 0 <= k < n ensures FinalAt(t, u, order, root, now, k) {
        if k < n - 1 {
          assert FinalAt(t, v, order, root, now, k);
          assert order[k] != order[n - 1];
        }
      }
    }
  }

  /** Both loops together: the listed rows get their final values, the others are kept. */
  lemma LoopsEffect(base: Table, parked: Table, u: Table, order: seq<nat>, root: Identity, now: int)
    requires Sorted(base, order) && parked == AfterParking(base, order, |order|)
    requires u == AfterRenumbering(parked, order, root, now, |order|)
    ensures forall k | 0 <= k < |order| :: FinalAt(base, u, order, root, now, k)
    ensures forall i: nat | i < |base| && i !in order :: u[i] == base[i]
  {
    SortedIsDistinct(base, order);
    ParkingEffect(base, order, |order|);
    RenumberingEffect(parked, order, root, now, |order|);
    assert order[..|order|] == order;
    forall k | 0 <= k < |order| ensures FinalAt(base, u, order, root, now, k) {
      assert ParkedAt(base, parked, order[k]);
      assert FinalAt(parked, u, order, root, now, k);
    }
  }

  /** Whole effect of an upsert: the lifecycle is renumbered, every other row is kept. */
  lemma UpsertEffect(t: Table, m: Message, now: int, u: Table, order: seq<nat>, root: Identity)
    requires UpsertWith(t, m, now, u, order, root)
    ensures var base := Inserted(t, m, now);
            |u| == |base| && Rows(base, order) &&
            (forall k | 0 <= k < |order| :: FinalAt(base, u, order, root, now, k)) &&
            (forall i: nat | i < |base| && i !in order :: u[i] == base[i]) &&
            SameMessages(base, u)
  {
    var base := Inserted(t, m, now);
    LoopsEffect(base, AfterParking(base, order, |order|), u, order, root, now);
    forall i: nat | i < |base| ensures base[i].message == u[i].message {
      if i in order {
        var k :| 0 <= k < |order| && order[k] == i;
        assert FinalAt(base, u, order, root, now, k);
      }
    }
  }

  /** The lifecycle of the incoming message is never empty. */
  lemma IncomingIsListed(base: Table, m: Message, order: seq<nat>)
    requires HasIdentity(base, m.id) && LifecycleOrder(base, ArrowsOf(Stored(base) + {m}), m.id, order)
    ensures order != []
  {
    var i :| 0 <= i < |base| && base[i].message.id == m.id;
    ConnectedToSelf(ArrowsOf(Stored(base) + {m}), m.id);
    assert i in order;
  }

  ghost predicate SameMessages(t: Table, u: Table) {
    |t| == |u| && forall i | 0 <= i < |t| :: t[i].message == u[i].message
  }

  lemma StoredOfSame(t: Table, u: Table)
    requires SameMessages(t, u)
    ensures Stored(t) == Stored(u)
  {}
}
