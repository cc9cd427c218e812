/** The queue rows that an upsert stamps anew after it has renumbered a lifecycle, and the
    unique index that may refuse the new stamps and with them the whole transaction. */
module CapQueue {
  import opened Optional
  import opened CapMessages
  import opened CapLifecycle
  import Recipients

  type Who = Recipients.Who
  type Action = Recipients.LifecycleAction

  /** A lifecycle row of `ews_notification_log`: the alert row it is about, and the columns
      of the unique index. */
  datatype QueueRow = QueueRow(alert: nat, who: Who, action: Action, key: Key, revision: nat)

  type Queue = seq<QueueRow>

  predicate SamePair(a: QueueRow, b: QueueRow) {
    a.who == b.who && a.action == b.action
  }

  predicate SameSlot(a: QueueRow, b: QueueRow) {
    SamePair(a, b) && a.key == b.key && a.revision == b.revision
  }

  ghost predicate UniqueSlots(q: Queue) {
    forall i, j | 0 <= i < j < |q| :: !SameSlot(q[i], q[j])
  }

  predicate StampedLike(t: Table, r: QueueRow) {
    r.alert < |t| && r.key == t[r.alert].key && r.revision == t[r.alert].revision
  }

  /** Every queue row carries the key and revision of its alert row. */
  ghost predicate Stamps(t: Table, q: Queue) {
    forall i | 0 <= i < |q| :: StampedLike(t, q[i])
  }

  // --------------------------------------------------------------- one statement

  predicate Occupied(q: Queue, i: nat, r: QueueRow) {
    exists j :: 0 <= j < |q| && j != i && SameSlot(q[j], r)
  }

  /** The statement for one alert row has passed the first `n` queue rows; none when the
      unique index has refused one of them. */
  function Stamped(q: Queue, alert: nat, key: Key, revision: nat, n: nat): (r: Option<Queue>)
    requires n <= |q|
    ensures r.Some? ==> |r.value| == |q|
  {
    if n == 0 then Some(q)
    else
      match Stamped(q, alert, key, revision, n - 1)
      case None => None
      case Some(p) =>
        var row := p[n - 1].(key := key, revision := revision);
        if p[n - 1].alert != alert then Some(p)
        else if Occupied(p, n - 1, row) then None
        else Some(p[n - 1 := row])
  }

  /** Row `i` wants the slot that row `j` of another alert has. */
  predicate Blocks(q: Queue, alert: nat, key: Key, revision: nat, i: nat, j: nat) {
    && i < |q| && j < |q| && q[i].alert == alert && q[j].alert != alert
    && SamePair(q[i], q[j]) && q[j].key == key && q[j].revision == revision
  }

  ghost predicate Blocked(q: Queue, alert: nat, key: Key, revision: nat, n: nat) {
    exists i: nat, j: nat :: i < n && Blocks(q, alert, key, revision, i, j)
  }

  ghost predicate OnePerPair(q: Queue, alert: nat) {
    forall i, j | 0 <= i < |q| && 0 <= j < |q| && i != j && q[i].alert == alert && q[j].alert == alert ::
      !SamePair(q[i], q[j])
  }

  predicate StampedUpTo(q: Queue, p: Queue, alert: nat, key: Key, revision: nat, n: nat, i: int)
    requires 0 <= i < |q| == |p|
  {
    p[i] == if i < n && q[i].alert == alert then q[i].(key := key, revision := revision) else q[i]
  }

  ghost predicate AllStamped(q: Queue, p: Queue, alert: nat, key: Key, revision: nat, n: nat) {
    |p| == |q| && forall i | 0 <= i < |q| :: StampedUpTo(q, p, alert, key, revision, n, i)
  }

  /** Row `m` as its alert's statement writes it. */
  function Restyled(q: Queue, key: Key, revision: nat, m: nat): QueueRow
    requires m < |q|
  {
    q[m].(key := key, revision := revision)
  }

  lemma OneRowMore(q: Queue, p: Queue, alert: nat, key: Key, revision: nat, m: nat)
    requires m < |q| && AllStamped(q, p, alert, key, revision, m)
    ensures p[m] == q[m]
    ensures AllStamped(q, if q[m].alert == alert then p[m := Restyled(q, key, revision, m)] else p,
                       alert, key, revision, m + 1)
  {
    var n: nat := m + 1;
    var p' := if q[m].alert == alert then p[m := Restyled(q, key, revision, m)] else p;
    assert StampedUpTo(q, p, alert, key, revision, m, m);
    forall i | 0 <= i < |q| ensures StampedUpTo(q, p', alert, key, revision, n, i) {
      assert StampedUpTo(q, p, alert, key, revision, m, i);
    }
  }

  lemma RowIsRefusedIff(q: Queue, p: Queue, alert: nat, key: Key, revision: nat, m: nat)
    requires m < |q| && OnePerPair(q, alert) && !Blocked(q, alert, key, revision, m)
    requires AllStamped(q, p, alert, key, revision, m)
    ensures Blocked(q, alert, key, revision, m + 1) <==>
            q[m].alert == alert && Occupied(p, m, Restyled(q, key, revision, m))
  {
    var row := Restyled(q, key, revision, m);
    if q[m].alert == alert && Occupied(p, m, row) {
      var j: nat :| j < |p| && j != m && SameSlot(p[j], row);
      assert StampedUpTo(q, p, alert, key, revision, m, j);
      assert Blocks(q, alert, key, revision, m, j);
    }
    if Blocked(q, alert, key, revision, m + 1) {
      var i: nat, j: nat :| i < m + 1 && Blocks(q, alert, key, revision, i, j);
      assert i == m;
      assert StampedUpTo(q, p, alert, key, revision, m, j);
      assert SameSlot(p[j], row);
    }
  }

  /** A statement fails exactly when some row is blocked; otherwise it stamps all rows of
      its alert, in whatever order it meets them. */
  lemma {:induction false} StampedEffect(q: Queue, alert: nat, key: Key, revision: nat, n: nat)
    requires n <= |q| && OnePerPair(q, alert)
    ensures Stamped(q, alert, key, revision, n).None? <==> Blocked(q, alert, key, revision, n)
    ensures match Stamped(q, alert, key, revision, n)
            case None => true
            case Some(p) => AllStamped(q, p, alert, key, revision, n)
  {
    if n > 0 {
      StampedEffect(q, alert, key, revision, n - 1);
      var before := Stamped(q, alert, key, revision, n - 1);
      if before.None? {
        var i: nat, j: nat :| i < n - 1 && Blocks(q, alert, key, revision, i, j);
        assert Blocked(q, alert, key, revision, n);
      } else {
        OneRowMore(q, before.value, alert, key, revision, n - 1);
        RowIsRefusedIff(q, before.value, alert, key, revision, n - 1);
      }
    }
  }

  // --------------------------------------------------------------- the third loop

  /** The queue after the statements for the first `n` rows of the lifecycle. */
  function Restamped(q: Queue, order: seq<nat>, root: Identity, n: nat): (r: Option<Queue>)
    requires n <= |order|
    ensures r.Some? ==> |r.value| == |q|
  {
    if n == 0 then Some(q)
    else
      match Restamped(q, order, root, n - 1)
      case None => None
      case Some(p) => Stamped(p, order[n - 1], CapKey(root), n, |p|)
  }

  function Position(order: seq<nat>, alert: nat, n: nat): (r: Option<nat>)
    requires n <= |order|
    ensures r.Some? ==> r.value < n && order[r.value] == alert
    ensures r.None? ==> forall k | 0 <= k < n :: order[k] != alert
  {
    if n == 0 then None else if order[n - 1] == alert then Some(n - 1) else Position(order, alert, n - 1)
  }

  /** What the first `n` statements make of a queue row. */
  function NewStamp(r: QueueRow, order: seq<nat>, root: Identity, n: nat): QueueRow
    requires n <= |order|
  {
    match Position(order, r.alert, n)
    case None => r
    case Some(k) => r.(key := CapKey(root), revision := k + 1)
  }

  /** Queue rows `x` and `y` clash: `x` is moved to the place `k` of the new order while
      `y`, of the later place `j`, still has the stamp of that place. */
  predicate Meet(t: Table, q: Queue, order: seq<nat>, root: Identity, k: nat, j: nat, x: nat, y: nat)
    requires Rows(t, order)
  {
    && k < j < |order| && x < |q| && y < |q|
    && q[x].alert == order[k] && q[y].alert == order[j] && q[x].who == q[y].who && q[x].action == q[y].action
    && t[order[j]].key == CapKey(root) && t[order[j]].revision == k + 1
  }

  ghost predicate CollidesBefore(t: Table, q: Queue, order: seq<nat>, root: Identity, n: nat)
    requires Rows(t, order)
  {
    exists k: nat, j: nat, x: nat, y: nat :: k < n && Meet(t, q, order, root, k, j, x, y)
  }

  ghost predicate Collides(t: Table, q: Queue, order: seq<nat>, root: Identity)
    requires Rows(t, order)
  {
    CollidesBefore(t, q, order, root, |order|)
  }

  /** No row outside the lifecycle carries the new key. */
  ghost predicate KeyIsFree(t: Table, order: seq<nat>, root: Identity) {
    forall i: nat | i < |t| && i !in order :: t[i].key != CapKey(root)
  }

  ghost predicate StampedAlong(q: Queue, p: Queue, order: seq<nat>, root: Identity, n: nat)
    requires n <= |order|
  {
    |p| == |q| && forall i | 0 <= i < |q| :: p[i] == NewStamp(q[i], order, root, n)
  }

  ghost predicate Restampable(t: Table, q: Queue, order: seq<nat>, root: Identity) {
    Rows(t, order) && Distinct(order) && Stamps(t, q) && UniqueSlots(q) && KeyIsFree(t, order, root)
  }

  lemma PairsStayApart(t: Table, q: Queue, p: Queue, order: seq<nat>, root: Identity, n: nat, alert: nat)
    requires Restampable(t, q, order, root) && n <= |order| && StampedAlong(q, p, order, root, n)
    ensures OnePerPair(p, alert)
  {
    forall i, j | 0 <= i < |p| && 0 <= j < |p| && i != j && p[i].alert == alert && p[j].alert == alert
      ensures !SamePair(p[i], p[j])
    {
      assert StampedLike(t, q[i]) && StampedLike(t, q[j]);
      assert if i < j then !SameSlot(q[i], q[j]) else !SameSlot(q[j], q[i]);
    }
  }

  /** Statement `n` is blocked exactly by a clash at place `n`. */
  lemma BlockedIffMeet(t: Table, q: Queue, p: Queue, order: seq<nat>, root: Identity, n: nat)
    requires Restampable(t, q, order, root) && n < |order| && StampedAlong(q, p, order, root, n)
    ensures Blocked(p, order[n], CapKey(root), n + 1, |p|) <==>
            exists j: nat, x: nat, y: nat :: Meet(t, q, order, root, n, j, x, y)
  {
    if Blocked(p, order[n], CapKey(root), n + 1, |p|) {
      var x: nat, y: nat :| x < |p| && Blocks(p, order[n], CapKey(root), n + 1, x, y);
      assert StampedLike(t, q[y]) && p[y] == NewStamp(q[y], order, root, n) && p[x] == NewStamp(q[x], order, root, n);
      assert q[y].alert in order;
      var j: nat :| j < |order| && order[j] == q[y].alert;
      assert Meet(t, q, order, root, n, j, x, y);
    }
    if j: nat, x: nat, y: nat :| Meet(t, q, order, root, n, j, x, y) {
      assert StampedLike(t, q[y]) && p[y] == NewStamp(q[y], order, root, n) && p[x] == NewStamp(q[x], order, root, n);
      assert Position(order, order[j], n).None?;
      assert Blocks(p, order[n], CapKey(root), n + 1, x, y);
    }
  }

  /** The loop fails exactly when two queue rows clash; otherwise every row of the lifecycle
      gets the stamp of its place, and every other row keeps its own. */
  lemma {:induction false} RestampedEffect(t: Table, q: Queue, order: seq<nat>, root: Identity, n: nat)
    requires Restampable(t, q, order, root) && n <= |order|
    ensures Restamped(q, order, root, n).None? <==> CollidesBefore(t, q, order, root, n)
    ensures match Restamped(q, order, root, n) case None => true case Some(p) => StampedAlong(q, p, order, root, n)
  {
    if n > 0 {
      RestampedEffect(t, q, order, root, n - 1);
      var before := Restamped(q, order, root, n - 1);
      if before.None? {
        var k: nat, j: nat, x: nat, y: nat :| k < n - 1 && Meet(t, q, order, root, k, j, x, y);
        assert CollidesBefore(t, q, order, root, n);
      } else {
        OneMoreStatement(t, q, before.value, order, root, n);
      }
    }
  }

  lemma CollidesOneMore(t: Table, q: Queue, order: seq<nat>, root: Identity, m: nat)
    requires Rows(t, order) && !CollidesBefore(t, q, order, root, m)
    ensures CollidesBefore(t, q, order, root, m + 1) <==>
            exists j: nat, x: nat, y: nat :: Meet(t, q, order, root, m, j, x, y)
  {
    if CollidesBefore(t, q, order, root, m + 1) {
      var k: nat, j: nat, x: nat, y: nat :| k < m + 1 && Meet(t, q, order, root, k, j, x, y);
      assert k == m;
    }
  }

  lemma StatementIsRefusedIff(t: Table, q: Queue, p: Queue, order: seq<nat>, root: Identity, m: nat)
    requires Restampable(t, q, order, root) && m < |order| && StampedAlong(q, p, order, root, m)
    requires !CollidesBefore(t, q, order, root, m)
    ensures Stamped(p, order[m], CapKey(root), m + 1, |p|).None? <==> CollidesBefore(t, q, order, root, m + 1)
  {
    PairsStayApart(t, q, p, order, root, m, order[m]);
    StampedEffect(p, order[m], CapKey(root), m + 1, |p|);
    BlockedIffMeet(t, q, p, order, root, m);
    CollidesOneMore(t, q, order, root, m);
  }

  lemma OneMoreStatement(t: Table, q: Queue, p: Queue, order: seq<nat>, root: Identity, n: nat)
    requires Restampable(t, q, order, root) && 0 < n <= |order| && StampedAlong(q, p, order, root, n - 1)
    requires !CollidesBefore(t, q, order, root, n - 1)
    ensures var after := Stamped(p, order[n - 1], CapKey(root), n, |p|);
            (after.None? <==> CollidesBefore(t, q, order, root, n)) &&
            (after.Some? ==> StampedAlong(q, after.value, order, root, n))
  {
    var m: nat := n - 1;
    StatementIsRefusedIff(t, q, p, order, root, m);
    PairsStayApart(t, q, p, order, root, m, order[m]);
    StampedEffect(p, order[m], CapKey(root), n, |p|);
    var after := Stamped(p, order[m], CapKey(root), n, |p|);
    if after.Some? { StatementStamps(q, p, after.value, order, root, n); }
  }

  lemma StatementStamps(q: Queue, p: Queue, after: Queue, order: seq<nat>, root: Identity, n: nat)
    requires 0 < n <= |order| && Distinct(order) && StampedAlong(q, p, order, root, n - 1)
    requires AllStamped(p, after, order[n - 1], CapKey(root), n, |p|)
    ensures StampedAlong(q, after, order, root, n)
  {
    forall i | 0 <= i < |q| ensures after[i] == NewStamp(q[i], order, root, n) {
      assert StampedUpTo(p, after, order[n - 1], CapKey(root), n, |p|, i);
      assert p[i] == NewStamp(q[i], order, root, n - 1);
    }
  }
}
