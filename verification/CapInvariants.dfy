/** What every CAP upsert keeps, after whole transactions and after single statements. */
module CapInvariants {
  import opened Optional
  import opened CapMessages
  import opened Components
  import opened ReferenceGraph
  import opened CapLifecycle

  // --------------------------------------------------------------- the invariant

  ghost function GraphOf(t: Table): Arrows {
    ArrowsOf(Stored(t))
  }

  /** The row at position `k` of its lifecycle carries revision `k + 1`, links to the row
      before it, is current exactly when last, and is active only when current. */
  predicate NumberedAt(t: Table, order: seq<nat>, k: nat)
    requires Rows(t, order) && k < |order|
  {
    var row := t[order[k]];
    && row.revision == k + 1
    && row.previous == (if k == 0 then None else Some(order[k - 1]))
    && row.current == (k + 1 == |order|)
    && (row.status == Active ==> row.current)
  }

  ghost predicate Lifecycle(t: Table, x: Identity, order: seq<nat>) {
    LifecycleOrder(t, GraphOf(t), x, order) && forall k | 0 <= k < |order| :: NumberedAt(t, order, k)
  }

  /** The key names an identity of the row's own component. */
  ghost predicate KeyedAt(t: Table, i: nat)
    requires i < |t|
  {
    t[i].key.CapKey? && Connected(GraphOf(t), t[i].message.id, t[i].key.root)
  }

  ghost predicate OneKey(t: Table, i: nat, j: nat)
    requires i < |t| && j < |t|
  {
    Connected(GraphOf(t), t[i].message.id, t[j].message.id) ==> t[i].key == t[j].key
  }

  ghost predicate InLifecycle(t: Table, i: nat)
    requires i < |t|
  {
    exists order :: Lifecycle(t, t[i].message.id, order)
  }

  ghost predicate Reconciled(t: Table) {
    && UniqueIds(t)
    && (forall i: nat | i < |t| :: KeyedAt(t, i) && InLifecycle(t, i))
    && (forall i: nat, j: nat | i < |t| && j < |t| :: OneKey(t, i, j))
  }

  /** One content per identity: a replay of a stored message repeats it. */
  predicate Consistent(t: Table, m: Message) {
    forall i: nat | i < |t| :: t[i].message.id == m.id ==> t[i].message == m
  }

  // --------------------------------------------------- two rows of one lifecycle

  /** Two rows share a key exactly when references connect their messages. */
  lemma SharedKeyIffConnected(t: Table, i: nat, j: nat)
    requires Reconciled(t) && i < |t| && j < |t|
    ensures t[i].key == t[j].key <==> Connected(GraphOf(t), t[i].message.id, t[j].message.id)
  {
    assert KeyedAt(t, i) && KeyedAt(t, j) && OneKey(t, i, j);
    if t[i].key == t[j].key {
      ConnectedIsEquivalence(GraphOf(t), t[j].message.id, t[j].key.root);
      ConnectedIsTransitive(GraphOf(t), t[i].message.id, t[i].key.root, t[j].message.id);
    }
  }

  /** Rows that share a key stand at different positions of one chronological listing. */
  lemma SharedLifecycle(t: Table, i: nat, j: nat) returns (order: seq<nat>, p: nat, q: nat)
    requires Reconciled(t) && i < |t| && j < |t| && t[i].key == t[j].key
    ensures Lifecycle(t, t[i].message.id, order)
    ensures p < |order| && order[p] == i && NumberedAt(t, order, p)
    ensures q < |order| && order[q] == j && NumberedAt(t, order, q)
  {
    SharedKeyIffConnected(t, i, j);
    ConnectedToSelf(GraphOf(t), t[i].message.id);
    assert InLifecycle(t, i);
    order :| Lifecycle(t, t[i].message.id, order);
    assert i in order && j in order;
    p :| p < |order| && order[p] == i;
    q :| q < |order| && order[q] == j;
  }

  // ----------------------------------------------------- the same, read off the rows

  /** The revisions of a lifecycle follow the sent times of its messages, and at equal times
      their senders and identifiers. */
  lemma RevisionsFollowTimes(t: Table, i: nat, j: nat)
    requires Reconciled(t) && i < |t| && j < |t| && t[i].key == t[j].key && i != j
    ensures t[i].revision < t[j].revision <==> SentBefore(t[i].message, t[j].message)
  {
    var order, p, q := SharedLifecycle(t, i, j);
    BeforeIffSentBefore(t[i].message, t[j].message);
    BeforeIsStrictOrder(t[i].message, t[j].message, t[i].message);
    if p < q {
      assert Before(t[order[p]].message, t[order[q]].message);
    } else {
      assert q < p && Before(t[order[q]].message, t[order[p]].message);
    }
  }

  ghost predicate HasRevision(t: Table, key: Key, revision: nat) {
    exists i :: 0 <= i < |t| && t[i].key == key && t[i].revision == revision
  }

  /** A row links to the one of its lifecycle with the revision before its own, and is the
      current one exactly when no revision of its lifecycle is higher; no number is left out. */
  lemma LifecycleOfRow(t: Table, i: nat)
    requires Reconciled(t) && i < |t|
    ensures t[i].revision >= 1 && forall r: nat | 1 <= r <= t[i].revision :: HasRevision(t, t[i].key, r)
    ensures match t[i].previous
            case None => t[i].revision == 1
            case Some(p) => p < |t| && t[p].key == t[i].key && t[p].revision + 1 == t[i].revision
    ensures t[i].current <==> !HasRevision(t, t[i].key, t[i].revision + 1)
    ensures t[i].current <==> forall j: nat | j < |t| && t[j].key == t[i].key :: t[j].revision <= t[i].revision
  {
    var order, p, q := SharedLifecycle(t, i, i);
    forall k: nat | k < |order| ensures NumberedAt(t, order, k) && t[order[k]].key == t[i].key {
      ListedShareKey(t, order, i, k);
    }
    forall r: nat | 1 <= r <= |order| ensures HasRevision(t, t[i].key, r) { assert t[order[r - 1]].revision == r; }
    forall j: nat | j < |t| && t[j].key == t[i].key ensures t[j].revision <= |order| {
      SharedKeyIffConnected(t, i, j);
      assert j in order;
      var k :| 0 <= k < |order| && order[k] == j;
      assert NumberedAt(t, order, k);
    }
    if t[i].current { assert p + 1 == |order|; } else { assert HasRevision(t, t[i].key, |order|); }
  }

  lemma ListedShareKey(t: Table, order: seq<nat>, i: nat, k: nat)
    requires Reconciled(t) && i < |t| && Lifecycle(t, t[i].message.id, order) && k < |order|
    ensures NumberedAt(t, order, k) && t[order[k]].key == t[i].key
  {
    assert order[k] in order && order[k] < |t|;
    SharedKeyIffConnected(t, i, order[k]);
  }

  // ------------------------------------------------------- the unique constraints

  /** The table's unique indexes: (key, revision), and one current row per key. */
  predicate NoClash(a: Row, b: Row) {
    a.key == b.key ==> a.revision != b.revision && !(a.current && b.current)
  }

  predicate ConstraintsHold(t: Table) {
    forall i, j | 0 <= i < j < |t| :: NoClash(t[i], t[j])
  }

  /** The index on payloads: no two rows of one key have one payload. */
  predicate PayloadsDiffer(t: Table) {
    forall i, j | 0 <= i < j < |t| :: t[i].key == t[j].key ==> t[i].message.checksum != t[j].message.checksum
  }

  /** A checksum stands for one message. */
  ghost predicate OwnChecksums(ms: set<Message>) {
    forall m, n | m in ms && n in ms && m.checksum == n.checksum :: m == n
  }

  /** With the same messages stored no statement can make two payloads of one key equal. */
  lemma OwnChecksumsDiffer(base: Table, u: Table)
    requires UniqueIds(base) && SameMessages(base, u) && OwnChecksums(Stored(base))
    ensures PayloadsDiffer(u)
  {
    forall i, j | 0 <= i < j < |u| ensures u[i].message.checksum != u[j].message.checksum {
      assert base[i].message in Stored(base) && base[j].message in Stored(base);
    }
  }

  lemma ReconciledMeetsConstraints(t: Table)
    requires Reconciled(t)
    ensures ConstraintsHold(t)
  {
    forall i, j | 0 <= i < j < |t| ensures NoClash(t[i], t[j]) {
      if t[i].key == t[j].key {
        var order, p, q := SharedLifecycle(t, i, j);
      }
    }
  }

  // --------------------------------------------------------------- preservation

  lemma InsertedFacts(t: Table, m: Message, now: int)
    requires UniqueIds(t) && Consistent(t, m)
    ensures var base := Inserted(t, m, now);
            Stored(base) == Stored(t) + {m} && UniqueIds(base) && HasIdentity(base, m.id) && t <= base
  {
    var base := Inserted(t, m, now);
    if HasIdentity(t, m.id) {
      var i: nat :| i < |t| && t[i].message.id == m.id;
      assert t[i].message == m;
    } else {
      assert base[|t|].message == m;
      forall x ensures x in Stored(base) <==> x in Stored(t) + {m} {
        if x in Stored(t) {
          var i: nat :| i < |t| && t[i].message == x;
          assert base[i].message == x;
        }
      }
    }
  }

  /** The graph only gains arrows that start at the incoming message. */
  lemma GraphGrows(t: Table, m: Message, u: Table)
    requires Stored(u) == Stored(t) + {m}
    ensures GraphOf(t) <= GraphOf(u)
    ensures forall e :: e in GraphOf(u) - GraphOf(t) ==> Connected(GraphOf(u), m.id, e.0)
  {
    ConnectedToSelf(GraphOf(u), m.id);
  }

  /** The facts about one upsert that every later lemma starts from. */
  lemma UpsertFacts(t: Table, m: Message, now: int, u: Table, order: seq<nat>, root: Identity)
    requires UniqueIds(t) && Consistent(t, m) && UpsertWith(t, m, now, u, order, root)
    ensures var base := Inserted(t, m, now);
            |t| <= |base| == |u| && SameMessages(base, u) && UniqueIds(u) &&
            Stored(u) == Stored(t) + {m} && LifecycleOrder(u, GraphOf(u), m.id, order) &&
            Canonical(Stored(u), m.id, root)
  {
    InsertedFacts(t, m, now);
    UpsertEffect(t, m, now, u, order, root);
    StoredOfSame(Inserted(t, m, now), u);
    assert Stored(u) + {m} == Stored(u);
  }

  lemma TouchedRow(t: Table, m: Message, now: int, u: Table, order: seq<nat>, root: Identity, i: nat)
    requires UniqueIds(t) && Consistent(t, m) && UpsertWith(t, m, now, u, order, root)
    requires i < |u| && Connected(GraphOf(u), m.id, u[i].message.id)
    ensures u[i].key == CapKey(root) && KeyedAt(u, i) && Lifecycle(u, u[i].message.id, order)
    ensures u[i].status == ReconciledStatus(u[i].message, u[i].current, now)
  {
    UpsertFacts(t, m, now, u, order, root);
    UpsertEffect(t, m, now, u, order, root);
    ConnectedIsEquivalence(GraphOf(u), m.id, u[i].message.id);
    var base := Inserted(t, m, now);
    assert i in order;
    forall k | 0 <= k < |order| ensures NumberedAt(u, order, k) {
      assert FinalAt(base, u, order, root, now, k);
    }
    var k :| 0 <= k < |order| && order[k] == i;
    assert FinalAt(base, u, order, root, now, k);
  }

  lemma UntouchedRow(t: Table, m: Message, now: int, u: Table, order: seq<nat>, root: Identity, i: nat)
    requires UniqueIds(t) && Consistent(t, m) && UpsertWith(t, m, now, u, order, root)
    requires i < |u| && !Connected(GraphOf(u), m.id, u[i].message.id)
    ensures i < |t| && u[i] == t[i]
    ensures forall x :: Connected(GraphOf(t), t[i].message.id, x) <==> Connected(GraphOf(u), t[i].message.id, x)
  {
    UpsertFacts(t, m, now, u, order, root);
    UpsertEffect(t, m, now, u, order, root);
    ConnectedToSelf(GraphOf(u), m.id);
    InsertedFacts(t, m, now);
    GraphGrows(t, m, u);
    UntouchedComponent(GraphOf(t), GraphOf(u), m.id, u[i].message.id);
    assert i !in order;
  }

  /** An untouched lifecycle stays one lifecycle: same rows, same numbering. */
  lemma UntouchedLifecycle(t: Table, m: Message, now: int, u: Table, order: seq<nat>, root: Identity, i: nat,
                           own: seq<nat>)
    requires UniqueIds(t) && Consistent(t, m) && UpsertWith(t, m, now, u, order, root)
    requires i < |u| && !Connected(GraphOf(u), m.id, u[i].message.id)
    requires i < |t| && Lifecycle(t, t[i].message.id, own)
    ensures Lifecycle(u, u[i].message.id, own)
  {
    UpsertFacts(t, m, now, u, order, root);
    UntouchedRow(t, m, now, u, order, root, i);
    var x := u[i].message.id;
    forall j: nat | j < |u|
      ensures j in own <==> Connected(GraphOf(u), x, u[j].message.id)
      ensures j in own ==> j < |t| && u[j] == t[j]
    {
      if Connected(GraphOf(u), x, u[j].message.id) {
        ConnectedIsEquivalence(GraphOf(u), x, u[j].message.id);
        if Connected(GraphOf(u), m.id, u[j].message.id) {
          ConnectedIsTransitive(GraphOf(u), m.id, u[j].message.id, x);
        }
        UntouchedRow(t, m, now, u, order, root, j);
      }
      InsertedFacts(t, m, now);
    }
    forall k | 0 <= k < |own| ensures NumberedAt(u, own, k) && u[own[k]] == t[own[k]] {
      assert NumberedAt(t, own, k) && own[k] in own;
    }
  }

  /** The main invariant: whatever arrives, the table stays reconciled. */
  lemma UpsertKeepsReconciled(t: Table, m: Message, now: int, u: Table)
    requires Reconciled(t) && Consistent(t, m) && UpsertStep(t, m, now, u)
    ensures Reconciled(u)
  {
    var order, root :| UpsertWith(t, m, now, u, order, root);
    UpsertFacts(t, m, now, u, order, root);
    forall i: nat | i < |u| ensures KeyedAt(u, i) && InLifecycle(u, i) {
      if Connected(GraphOf(u), m.id, u[i].message.id) {
        TouchedRow(t, m, now, u, order, root, i);
      } else {
        UntouchedRow(t, m, now, u, order, root, i);
        assert KeyedAt(t, i) && InLifecycle(t, i);
        var own :| Lifecycle(t, t[i].message.id, own);
        UntouchedLifecycle(t, m, now, u, order, root, i, own);
      }
    }
    forall i: nat, j: nat | i < |u| && j < |u| ensures OneKey(u, i, j) {
      OneKeyAfter(t, m, now, u, order, root, i, j);
    }
  }

  lemma OneKeyAfter(t: Table, m: Message, now: int, u: Table, order: seq<nat>, root: Identity, i: nat, j: nat)
    requires Reconciled(t) && Consistent(t, m) && UpsertWith(t, m, now, u, order, root)
    requires i < |u| && j < |u|
    ensures OneKey(u, i, j)
  {
    UpsertFacts(t, m, now, u, order, root);
    if Connected(GraphOf(u), u[i].message.id, u[j].message.id) {
      ConnectedIsEquivalence(GraphOf(u), u[i].message.id, u[j].message.id);
      if Connected(GraphOf(u), m.id, u[i].message.id) {
        ConnectedIsTransitive(GraphOf(u), m.id, u[i].message.id, u[j].message.id);
        TouchedRow(t, m, now, u, order, root, i);
        TouchedRow(t, m, now, u, order, root, j);
      } else {
        if Connected(GraphOf(u), m.id, u[j].message.id) {
          ConnectedIsTransitive(GraphOf(u), m.id, u[j].message.id, u[i].message.id);
        }
        UntouchedRow(t, m, now, u, order, root, i);
        UntouchedRow(t, m, now, u, order, root, j);
        assert OneKey(t, i, j);
      }
    }
  }

  // ------------------------------------------- the constraints between statements

  lemma InsertedMeetsConstraints(t: Table, m: Message, now: int)
    requires Reconciled(t)
    ensures ConstraintsHold(Inserted(t, m, now))
    ensures forall i: nat | i < |Inserted(t, m, now)| :: !Inserted(t, m, now)[i].key.ParkedKey?
  {
    var base := Inserted(t, m, now);
    ReconciledMeetsConstraints(t);
    forall i, j | 0 <= i < j < |base| ensures NoClash(base[i], base[j]) {
      assert KeyedAt(t, i);
      assert j < |t| ==> NoClash(t[i], t[j]);
    }
    forall i: nat | i < |base| ensures !base[i].key.ParkedKey? {
      assert i < |t| ==> KeyedAt(t, i);
    }
  }

  lemma ParkingMeetsConstraints(base: Table, order: seq<nat>, n: nat)
    requires ConstraintsHold(base) && forall i: nat | i < |base| :: !base[i].key.ParkedKey?
    requires Sorted(base, order) && n <= |order|
    ensures ConstraintsHold(AfterParking(base, order, n))
  {
    var u := AfterParking(base, order, n);
    SortedIsDistinct(base, order);
    ParkingEffect(base, order, n);
    forall i: nat | i < |u| ensures u[i] == base[i] || ParkedAt(base, u, i) {
      if i in order[..n] {
        var k :| 0 <= k < n && order[k] == i;
      }
    }
    forall i, j | 0 <= i < j < |u| ensures NoClash(u[i], u[j]) {
      assert NoClash(base[i], base[j]);
      assert u[i] == base[i] || ParkedAt(base, u, i);
      assert u[j] == base[j] || ParkedAt(base, u, j);
    }
  }

  /** No row outside the lifecycle carries the key that renumbering hands out. */
  lemma NewKeyIsFree(t: Table, m: Message, now: int, order: seq<nat>, root: Identity, i: nat)
    requires Reconciled(t) && Consistent(t, m)
    requires LifecycleOrder(Inserted(t, m, now), GraphOf(Inserted(t, m, now)), m.id, order)
    requires Canonical(Stored(Inserted(t, m, now)), m.id, root)
    requires i < |Inserted(t, m, now)| && i !in order
    ensures Inserted(t, m, now)[i].key.CapKey? && Inserted(t, m, now)[i].key.root != root
  {
    var base := Inserted(t, m, now);
    var es := GraphOf(base);
    InsertedFacts(t, m, now);
    GraphGrows(t, m, base);
    ConnectedToSelf(es, m.id);
    assert i < |t|;
    assert KeyedAt(t, i);
    ConnectedGrows(GraphOf(t), es, t[i].message.id, t[i].key.root);
    ConnectedIsEquivalence(es, t[i].message.id, t[i].key.root);
    if t[i].key.root == root {
      ConnectedIsTransitive(es, m.id, root, t[i].message.id);
      assert false;
    }
  }

  /** What a row looks like after `n` statements of the second loop. */
  ghost predicate HalfRenumbered(base: Table, u: Table, order: seq<nat>, root: Identity, i: nat)
    requires |base| == |u| && i < |u|
  {
    || (i !in order && u[i] == base[i])
    || (i in order && u[i].key == ParkedKey(i))
    || (exists k :: 0 <= k < |order| && order[k] == i && u[i].key == CapKey(root) &&
                    u[i].revision == k + 1 && u[i].current == (k + 1 == |order|))
  }

  lemma RenumberingShape(base: Table, order: seq<nat>, root: Identity, now: int, n: nat, i: nat)
    requires Sorted(base, order) && n <= |order| && i < |base|
    ensures HalfRenumbered(base, AfterRenumbering(AfterParking(base, order, |order|), order, root, now, n),
                           order, root, i)
  {
    var parked := AfterParking(base, order, |order|);
    var u := AfterRenumbering(parked, order, root, now, n);
    SortedIsDistinct(base, order);
    ParkingEffect(base, order, |order|);
    RenumberingEffect(parked, order, root, now, n);
    assert order[..|order|] == order;
    if i in order[..n] {
      var k :| 0 <= k < n && order[k] == i;
      assert FinalAt(parked, u, order, root, now, k);
    } else if i in order {
      var k :| 0 <= k < |order| && order[k] == i;
      assert ParkedAt(base, parked, order[k]);
    }
  }

  lemma RenumberingMeetsConstraints(base: Table, u: Table, order: seq<nat>, root: Identity)
    requires ConstraintsHold(base) && |u| == |base|
    requires forall i: nat | i < |u| :: HalfRenumbered(base, u, order, root, i)
    requires forall i: nat | i < |base| && i !in order :: base[i].key.CapKey? && base[i].key.root != root
    ensures ConstraintsHold(u)
  {
    forall i, j | 0 <= i < j < |u| ensures NoClash(u[i], u[j]) {
      assert NoClash(base[i], base[j]);
      assert HalfRenumbered(base, u, order, root, i) && HalfRenumbered(base, u, order, root, j);
    }
  }

  /** No single statement of an upsert breaks a unique index: not the insert, not any
      parking update, not any renumbering update, even when old lifecycles merge. */
  lemma EveryStatementMeetsConstraints(t: Table, m: Message, now: int, order: seq<nat>, root: Identity, n: nat)
    requires Reconciled(t) && Consistent(t, m) && n <= |order|
    requires LifecycleOrder(Inserted(t, m, now), GraphOf(Inserted(t, m, now)), m.id, order)
    requires Canonical(Stored(Inserted(t, m, now)), m.id, root)
    ensures var base := Inserted(t, m, now);
            ConstraintsHold(base) &&
            ConstraintsHold(AfterParking(base, order, n)) &&
            ConstraintsHold(AfterRenumbering(AfterParking(base, order, |order|), order, root, now, n))
    ensures var base := Inserted(t, m, now);
            OwnChecksums(Stored(t) + {m}) ==>
              PayloadsDiffer(base) && PayloadsDiffer(AfterParking(base, order, n)) &&
              PayloadsDiffer(AfterRenumbering(AfterParking(base, order, |order|), order, root, now, n))
  {
    var base := Inserted(t, m, now);
    InsertedMeetsConstraints(t, m, now);
    ParkingMeetsConstraints(base, order, n);
    var u := AfterRenumbering(AfterParking(base, order, |order|), order, root, now, n);
    forall i: nat | i < |u| ensures HalfRenumbered(base, u, order, root, i) {
      RenumberingShape(base, order, root, now, n, i);
    }
    forall i: nat | i < |base| && i !in order ensures base[i].key.CapKey? && base[i].key.root != root {
      NewKeyIsFree(t, m, now, order, root, i);
    }
    RenumberingMeetsConstraints(base, u, order, root);
    if OwnChecksums(Stored(t) + {m}) { EveryStatementKeepsPayloadsApart(t, m, now, order, root, n); }
  }

  lemma EveryStatementKeepsPayloadsApart(t: Table, m: Message, now: int, order: seq<nat>, root: Identity, n: nat)
    requires UniqueIds(t) && Consistent(t, m) && Rows(Inserted(t, m, now), order) && n <= |order|
    requires OwnChecksums(Stored(t) + {m})
    ensures var base := Inserted(t, m, now);
            PayloadsDiffer(base) && PayloadsDiffer(AfterParking(base, order, n)) &&
            PayloadsDiffer(AfterRenumbering(AfterParking(base, order, |order|), order, root, now, n))
  {
    var base := Inserted(t, m, now);
    InsertedFacts(t, m, now);
    ParkingKeepsMessages(base, order, n);
    ParkingKeepsMessages(base, order, |order|);
    RenumberingKeepsMessages(AfterParking(base, order, |order|), order, root, now, n);
    OwnChecksumsDiffer(base, base);
    OwnChecksumsDiffer(base, AfterParking(base, order, n));
    OwnChecksumsDiffer(base, AfterRenumbering(AfterParking(base, order, |order|), order, root, now, n));
  }

  lemma {:induction false} ParkingKeepsMessages(base: Table, order: seq<nat>, n: nat)
    requires Rows(base, order) && n <= |order|
    ensures SameMessages(base, AfterParking(base, order, n))
  {
    if n > 0 { ParkingKeepsMessages(base, order, n - 1); }
  }

  lemma {:induction false} RenumberingKeepsMessages(t: Table, order: seq<nat>, root: Identity, now: int, n: nat)
    requires Rows(t, order) && n <= |order|
    ensures SameMessages(t, AfterRenumbering(t, order, root, now, n))
  {
    if n > 0 { RenumberingKeepsMessages(t, order, root, now, n - 1); }
  }
}
