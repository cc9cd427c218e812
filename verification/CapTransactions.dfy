/** A CAP upsert as one transaction over alert rows and queue rows: it commits as a whole,
    or the unique index of the queue refuses a stamp and nothing changes. */
module CapTransactions {
  import opened Optional
  import opened CapMessages
  import opened Components
  import opened ReferenceGraph
  import opened CapLifecycle
  import opened CapInvariants
  import opened CapQueue
  import CapRuns

  datatype Store = Store(alerts: Table, queue: Queue)

  /** Every lifecycle is numbered, and every queue row carries the stamp of its alert. */
  ghost predicate Sound(s: Store) {
    Reconciled(s.alerts) && Stamps(s.alerts, s.queue) && UniqueSlots(s.queue)
  }

  /** The order and the root that an upsert computes before it writes. */
  ghost predicate Planned(t: Table, m: Message, now: int, order: seq<nat>, root: Identity) {
    var base := Inserted(t, m, now);
    LifecycleOrder(base, ArrowsOf(Stored(base) + {m}), m.id, order) && Canonical(Stored(base) + {m}, m.id, root)
  }

  ghost predicate ArrivalWith(s: Store, m: Message, now: int, s': Store, u: Table, order: seq<nat>, root: Identity) {
    && UpsertWith(s.alerts, m, now, u, order, root)
    && match Restamped(s.queue, order, root, |order|)
       case None => s' == s
       case Some(queue) => s' == Store(u, queue)
  }

  ghost predicate Arrival(s: Store, m: Message, now: int, s': Store) {
    exists u, order, root :: ArrivalWith(s, m, now, s', u, order, root)
  }

  /** What the tables show before the call: two queue rows that the new order makes clash. */
  ghost predicate Refused(s: Store, m: Message, now: int) {
    exists order, root :: Planned(s.alerts, m, now, order, root) &&
                          Collides(Inserted(s.alerts, m, now), s.queue, order, root)
  }

  // ------------------------------------------------------------- the plan is unique

  lemma OrderIsUnique(t: Table, es: Arrows, x: Identity, a: seq<nat>, b: seq<nat>)
    requires UniqueIds(t) && LifecycleOrder(t, es, x, a) && LifecycleOrder(t, es, x, b)
    ensures a == b
  {
    SameMembersSameListing(t, a, b);
    var la, lb := CapRuns.At(t, a), CapRuns.At(t, b);
    forall k | 0 <= k < |a| ensures a[k] == b[k] {
      assert la[k] == lb[k];
    }
  }

  lemma SameMembersSameListing(t: Table, a: seq<nat>, b: seq<nat>)
    requires Sorted(t, a) && Sorted(t, b) && forall i: nat | i < |t| :: i in a <==> i in b
    ensures CapRuns.At(t, a) == CapRuns.At(t, b)
  {
    var la, lb := CapRuns.At(t, a), CapRuns.At(t, b);
    forall m ensures m in la <==> m in lb {
      MemberOfListing(t, a, m);
      MemberOfListing(t, b, m);
    }
    ChronologicalListingIsUnique(la, lb);
  }

  lemma MemberOfListing(t: Table, order: seq<nat>, m: Message)
    requires Rows(t, order)
    ensures m in CapRuns.At(t, order) <==> exists i: nat :: i in order && i < |t| && t[i].message == m
  {
    if m in CapRuns.At(t, order) {
      var k :| 0 <= k < |order| && CapRuns.At(t, order)[k] == m;
      assert order[k] in order;
    }
    if i: nat :| i in order && i < |t| && t[i].message == m {
      var k :| 0 <= k < |order| && order[k] == i;
      assert CapRuns.At(t, order)[k] == m;
    }
  }

  lemma PlanIsUnique(t: Table, m: Message, now: int, order: seq<nat>, root: Identity, order': seq<nat>, root': Identity)
    requires UniqueIds(t) && Consistent(t, m)
    requires Planned(t, m, now, order, root) && Planned(t, m, now, order', root')
    ensures order == order' && root == root'
  {
    InsertedFacts(t, m, now);
    var base := Inserted(t, m, now);
    OrderIsUnique(base, ArrowsOf(Stored(base) + {m}), m.id, order, order');
    ConnectedToSelf(ArrowsOf(Stored(base) + {m}), m.id);
    CanonicalIsUnique(Stored(base) + {m}, m.id, root, m.id, root');
  }

  // -------------------------------------------------------- exactly when it commits

  lemma PlanIsRestampable(s: Store, m: Message, now: int, order: seq<nat>, root: Identity)
    requires Sound(s) && Consistent(s.alerts, m) && Planned(s.alerts, m, now, order, root)
    ensures Restampable(Inserted(s.alerts, m, now), s.queue, order, root)
  {
    var base := Inserted(s.alerts, m, now);
    InsertedFacts(s.alerts, m, now);
    assert Stored(base) + {m} == Stored(base);
    SortedIsDistinct(base, order);
    forall i | 0 <= i < |s.queue| ensures StampedLike(base, s.queue[i]) {
      assert StampedLike(s.alerts, s.queue[i]);
    }
    forall i: nat | i < |base| && i !in order ensures base[i].key != CapKey(root) {
      NewKeyIsFree(s.alerts, m, now, order, root, i);
    }
  }

  /** An arrival is refused exactly when the new order makes two queue rows clash, which can
      be read off the tables before the call; the choice of order and root is no choice. */
  lemma RefusedIff(s: Store, m: Message, now: int, order: seq<nat>, root: Identity)
    requires Sound(s) && Consistent(s.alerts, m) && Planned(s.alerts, m, now, order, root)
    ensures Restamped(s.queue, order, root, |order|).None? <==>
            Collides(Inserted(s.alerts, m, now), s.queue, order, root)
    ensures Refused(s, m, now) <==> Collides(Inserted(s.alerts, m, now), s.queue, order, root)
  {
    PlanIsRestampable(s, m, now, order, root);
    RestampedEffect(Inserted(s.alerts, m, now), s.queue, order, root, |order|);
    if Refused(s, m, now) {
      var order', root' :| Planned(s.alerts, m, now, order', root') &&
        Collides(Inserted(s.alerts, m, now), s.queue, order', root');
      PlanIsUnique(s.alerts, m, now, order, root, order', root');
    }
  }

  lemma NewStampsFit(base: Table, q: Queue, u: Table, p: Queue, order: seq<nat>, root: Identity, now: int)
    requires Restampable(base, q, order, root) && |u| == |base| && StampedAlong(q, p, order, root, |order|)
    requires forall k | 0 <= k < |order| :: FinalAt(base, u, order, root, now, k)
    requires forall i: nat | i < |base| && i !in order :: u[i] == base[i]
    ensures Stamps(u, p) && UniqueSlots(p)
  {
    forall i | 0 <= i < |p| ensures StampedLike(u, p[i]) {
      NewStampFits(base, q, u, p, order, root, now, i);
    }
    forall i, j | 0 <= i < j < |p| ensures !SameSlot(p[i], p[j]) {
      assert !SameSlot(q[i], q[j]) && StampedLike(base, q[i]) && StampedLike(base, q[j]);
      assert p[i] == NewStamp(q[i], order, root, |order|) && p[j] == NewStamp(q[j], order, root, |order|);
    }
  }

  lemma NewStampFits(base: Table, q: Queue, u: Table, p: Queue, order: seq<nat>, root: Identity, now: int, i: nat)
    requires Restampable(base, q, order, root) && |u| == |base| && StampedAlong(q, p, order, root, |order|) && i < |p|
    requires forall k | 0 <= k < |order| :: FinalAt(base, u, order, root, now, k)
    requires forall i: nat | i < |base| && i !in order :: u[i] == base[i]
    ensures StampedLike(u, p[i])
  {
    assert StampedLike(base, q[i]) && p[i] == NewStamp(q[i], order, root, |order|);
    var place := Position(order, q[i].alert, |order|);
    if place.Some? { assert FinalAt(base, u, order, root, now, place.value); }
  }

  /** The whole transaction: refused and without effect, or committed with every lifecycle
      numbered, every queue row stamped, and the message stored. */
  lemma ArrivalCommitsIff(s: Store, m: Message, now: int, s': Store)
    requires Sound(s) && Consistent(s.alerts, m) && Arrival(s, m, now, s')
    ensures Sound(s')
    ensures if Refused(s, m, now) then s' == s
            else UpsertStep(s.alerts, m, now, s'.alerts) && Stored(s'.alerts) == Stored(s.alerts) + {m}
  {
    var u, order, root :| ArrivalWith(s, m, now, s', u, order, root);
    RefusedIff(s, m, now, order, root);
    if !Refused(s, m, now) {
      var base := Inserted(s.alerts, m, now);
      PlanIsRestampable(s, m, now, order, root);
      RestampedEffect(base, s.queue, order, root, |order|);
      UpsertEffect(s.alerts, m, now, u, order, root);
      UpsertFacts(s.alerts, m, now, u, order, root);
      UpsertKeepsReconciled(s.alerts, m, now, u);
      NewStampsFit(base, s.queue, u, s'.queue, order, root, now);
    }
  }

  // --------------------------------------------------- arrivals that are never refused

  lemma SameRowsButStatus(t: Table, m: Message, now: int, now': int)
    ensures var a, b := Inserted(t, m, now), Inserted(t, m, now');
            |a| == |b| && SameMessages(a, b) &&
            forall i | 0 <= i < |a| :: a[i].key == b[i].key && a[i].revision == b[i].revision
  {}

  lemma PlanIgnoresClock(t: Table, m: Message, now: int, now': int, order: seq<nat>, root: Identity)
    requires Planned(t, m, now, order, root)
    ensures Planned(t, m, now', order, root)
  {
    SameRowsButStatus(t, m, now, now');
    StoredOfSame(Inserted(t, m, now), Inserted(t, m, now'));
  }

  lemma CollisionIgnoresStatus(a: Table, b: Table, q: Queue, order: seq<nat>, root: Identity)
    requires |a| == |b| && forall i | 0 <= i < |a| :: a[i].key == b[i].key && a[i].revision == b[i].revision
    requires Rows(a, order) && Collides(a, q, order, root)
    ensures Rows(b, order) && Collides(b, q, order, root)
  {
    var k: nat, j: nat, x: nat, y: nat :| k < |order| && Meet(a, q, order, root, k, j, x, y);
    assert Meet(b, q, order, root, k, j, x, y);
  }

  /** The clock plays no part: an arrival that is refused is refused again on every retry,
      for as long as the tables stay as they are. */
  lemma RetryIsRefusedToo(s: Store, m: Message, now: int, now': int)
    requires Refused(s, m, now)
    ensures Refused(s, m, now')
  {
    var order, root :| Planned(s.alerts, m, now, order, root) &&
                       Collides(Inserted(s.alerts, m, now), s.queue, order, root);
    SameRowsButStatus(s.alerts, m, now, now');
    PlanIgnoresClock(s.alerts, m, now, now', order, root);
    CollisionIgnoresStatus(Inserted(s.alerts, m, now), Inserted(s.alerts, m, now'), s.queue, order, root);
  }

  /** Rows that already have the new key have kept or lost places, never gained one. */
  predicate NoneMovesUp(base: Table, order: seq<nat>, root: Identity)
    requires Rows(base, order)
  {
    forall j | 0 <= j < |order| && base[order[j]].key == CapKey(root) :: base[order[j]].revision >= j + 1
  }

  lemma NoneMovesUpCommits(base: Table, q: Queue, order: seq<nat>, root: Identity)
    requires Rows(base, order) && NoneMovesUp(base, order, root)
    ensures !Collides(base, q, order, root)
  {}

  /** Two listings of one lifecycle of the table are the same. */
  lemma NumberedInItsOrder(t: Table, x: Identity, order: seq<nat>, i: nat, j: nat)
    requires Reconciled(t) && LifecycleOrder(t, GraphOf(t), x, order) && j < |order| && order[j] == i
    ensures t[i].revision == j + 1
  {
    ConnectedToSelf(GraphOf(t), t[i].message.id);
    assert i in order;
    ConnectedIsEquivalence(GraphOf(t), x, t[i].message.id);
    assert InLifecycle(t, i);
    var own :| Lifecycle(t, t[i].message.id, own);
    OrderIsUnique(t, GraphOf(t), x, order, own);
    assert NumberedAt(t, own, j);
  }

  /** A replay is never refused. */
  lemma ReplayIsNeverRefused(s: Store, m: Message, now: int)
    requires Sound(s) && Consistent(s.alerts, m) && m in Stored(s.alerts)
    ensures !Refused(s, m, now)
  {
    forall order, root | Planned(s.alerts, m, now, order, root)
      ensures !Collides(Inserted(s.alerts, m, now), s.queue, order, root)
    {
      var own: nat :| own < |s.alerts| && s.alerts[own].message == m;
      assert Inserted(s.alerts, m, now) == s.alerts && Stored(s.alerts) + {m} == Stored(s.alerts);
      forall j | 0 <= j < |order| ensures s.alerts[order[j]].revision == j + 1 {
        NumberedInItsOrder(s.alerts, m.id, order, order[j], j);
      }
      NoneMovesUpCommits(s.alerts, s.queue, order, root);
    }
  }

  /** The message is new, and joins no more than one lifecycle. */
  ghost predicate JoinsOne(t: Table, m: Message) {
    var es := ArrowsOf(Stored(t) + {m});
    && !HasIdentity(t, m.id)
    && (forall i: nat, j: nat | i < |t| && j < |t| && Connected(es, m.id, t[i].message.id) &&
          Connected(es, m.id, t[j].message.id) :: t[i].key == t[j].key)
  }

  /** A stored row of the new lifecycle stands in the new order exactly when it stood in
      the lifecycle of row `i`. */
  lemma EarlierRow(t: Table, m: Message, now: int, order: seq<nat>, root: Identity, i: nat, j: nat)
    requires Reconciled(t) && Consistent(t, m) && JoinsOne(t, m) && Planned(t, m, now, order, root)
    requires i in order && i < |t| && j < |t|
    ensures j in order <==> Connected(GraphOf(t), t[i].message.id, t[j].message.id)
  {
    var base := Inserted(t, m, now);
    var es, x := ArrowsOf(Stored(t) + {m}), t[i].message.id;
    InsertedFacts(t, m, now);
    assert Stored(base) + {m} == Stored(t) + {m};
    assert base[i] == t[i] && base[j] == t[j];
    assert Connected(es, m.id, x);
    SharedKeyIffConnected(t, i, j);
    if Connected(GraphOf(t), x, t[j].message.id) {
      ConnectedGrows(GraphOf(t), es, x, t[j].message.id);
      ConnectedIsTransitive(es, m.id, x, t[j].message.id);
    }
  }

  function Without(order: seq<nat>, p: nat): seq<nat>
    requires p < |order|
  {
    order[..p] + order[p + 1..]
  }

  lemma WithoutMembers(order: seq<nat>, p: nat, i: nat)
    requires Distinct(order) && p < |order|
    ensures i in Without(order, p) <==> i in order && i != order[p]
  {
    assert order == order[..p] + [order[p]] + order[p + 1..];
    if i in Without(order, p) {
      var k :| 0 <= k < |order| - 1 && Without(order, p)[k] == i;
      assert order[if k < p then k else k + 1] == i;
    }
  }

  /** Without the new row, the new order is the order the lifecycle had. */
  lemma OldOrder(t: Table, m: Message, now: int, order: seq<nat>, root: Identity, p: nat, i: nat)
    requires Reconciled(t) && Consistent(t, m) && JoinsOne(t, m) && Planned(t, m, now, order, root)
    requires p < |order| && order[p] == |t| && i in order && i < |t|
    ensures LifecycleOrder(t, GraphOf(t), t[i].message.id, Without(order, p))
  {
    var base, earlier := Inserted(t, m, now), Without(order, p);
    SortedIsDistinct(base, order);
    assert forall k | 0 <= k < |order| :: order[k] < |base|;
    forall k | 0 <= k < |earlier| ensures earlier[k] < |t| && base[earlier[k]] == t[earlier[k]] {
      assert earlier[k] in earlier;
      WithoutMembers(order, p, earlier[k]);
    }
    forall j: nat | j < |t| ensures j in earlier <==> Connected(GraphOf(t), t[i].message.id, t[j].message.id) {
      EarlierRow(t, m, now, order, root, i, j);
      WithoutMembers(order, p, j);
    }
  }

  /** The rows before the new one keep their revision as their place, those after it are
      moved up by one. */
  lemma OldRevision(t: Table, m: Message, now: int, order: seq<nat>, root: Identity, p: nat, j: nat)
    requires Reconciled(t) && Consistent(t, m) && JoinsOne(t, m) && Planned(t, m, now, order, root)
    requires p < |order| && order[p] == |t| && j < |order| && j != p
    ensures order[j] < |t| && t[order[j]].revision == if j < p then j + 1 else j
  {
    SortedIsDistinct(Inserted(t, m, now), order);
    assert order[j] < |Inserted(t, m, now)| && order[j] != order[p];
    assert order[j] in order;
    OldOrder(t, m, now, order, root, p, order[j]);
    NumberedInItsOrder(t, t[order[j]].message.id, Without(order, p), order[j], if j < p then j else j - 1);
  }

  lemma NewRowIsListed(t: Table, m: Message, now: int, order: seq<nat>, root: Identity) returns (p: nat)
    requires Consistent(t, m) && UniqueIds(t) && !HasIdentity(t, m.id) && Planned(t, m, now, order, root)
    ensures p < |order| && order[p] == |t|
  {
    var base := Inserted(t, m, now);
    ConnectedToSelf(ArrowsOf(Stored(base) + {m}), m.id);
    var last: nat := |t|;
    assert base[last].message == m && last in order;
    p :| p < |order| && order[p] == last;
  }

  /** Two queue rows of neighbouring places after place `p` with one recipient and action. */
  ghost predicate NeighboursMeet(q: Queue, order: seq<nat>, p: nat, k: nat, x: nat, y: nat) {
    && p < k && k + 1 < |order| && x < |q| && y < |q|
    && q[x].alert == order[k] && q[y].alert == order[k + 1]
    && q[x].who == q[y].who && q[x].action == q[y].action
  }

  /** Every row but the new one, at place `p`, is as it was, and was numbered without it. */
  ghost predicate OldRows(t: Table, base: Table, order: seq<nat>, p: nat) {
    && p < |order| && order[p] == |t| && |t| < |base| && Rows(base, order)
    && forall j: nat | j < |order| && j != p ::
         order[j] < |t| && base[order[j]] == t[order[j]] && t[order[j]].revision == if j < p then j + 1 else j
  }

  lemma PlanHasOldRows(t: Table, m: Message, now: int, order: seq<nat>, root: Identity, p: nat)
    requires Reconciled(t) && Consistent(t, m) && JoinsOne(t, m) && Planned(t, m, now, order, root)
    requires p < |order| && order[p] == |t|
    ensures OldRows(t, Inserted(t, m, now), order, p)
  {
    forall j: nat | j < |order| && j != p
      ensures order[j] < |t| && t[order[j]].revision == if j < p then j + 1 else j
    {
      OldRevision(t, m, now, order, root, p, j);
    }
  }

  lemma MeetIsOfNeighbours(t: Table, base: Table, q: Queue, order: seq<nat>, root: Identity, p: nat,
                           k: nat, j: nat, x: nat, y: nat)
    requires OldRows(t, base, order, p) && Stamps(t, q) && Meet(base, q, order, root, k, j, x, y)
    ensures NeighboursMeet(q, order, p, k, x, y) && j == k + 1 && t[order[j]].key == CapKey(root)
  {
    assert StampedLike(t, q[x]) && StampedLike(t, q[y]);
  }

  ghost predicate AllKeyed(t: Table, order: seq<nat>, p: nat, root: Identity) {
    forall j: nat | j < |order| && j != p :: order[j] < |t| && t[order[j]].key == CapKey(root)
  }

  lemma NeighboursCollide(t: Table, base: Table, q: Queue, order: seq<nat>, root: Identity, p: nat,
                          k: nat, x: nat, y: nat)
    requires OldRows(t, base, order, p) && NeighboursMeet(q, order, p, k, x, y) && AllKeyed(t, order, p, root)
    ensures Collides(base, q, order, root)
  {
    assert Meet(base, q, order, root, k, k + 1, x, y);
  }

  lemma OneKeyForAll(t: Table, m: Message, now: int, order: seq<nat>, root: Identity, p: nat, j: nat)
    requires Reconciled(t) && Consistent(t, m) && JoinsOne(t, m) && Planned(t, m, now, order, root)
    requires OldRows(t, Inserted(t, m, now), order, p) && j < |order| && j != p && t[order[j]].key == CapKey(root)
    ensures AllKeyed(t, order, p, root)
  {
    forall i: nat | i < |order| && i != p ensures order[i] < |t| && t[order[i]].key == CapKey(root) {
      OneLifecycleOneKey(t, m, now, order, root, order[i], order[j]);
    }
  }

  /** A new message that joins one lifecycle at place `p` is refused exactly when the
      lifecycle keeps its key, and two neighbouring messages after that place have been
      queued for one recipient under one action. */
  lemma LateArrivalIsRefusedIff(s: Store, m: Message, now: int, order: seq<nat>, root: Identity, p: nat)
    requires Sound(s) && Consistent(s.alerts, m) && JoinsOne(s.alerts, m) && Planned(s.alerts, m, now, order, root)
    requires p < |order| && order[p] == |s.alerts|
    ensures Refused(s, m, now) <==>
            AllKeyed(s.alerts, order, p, root) &&
            exists k: nat, x: nat, y: nat :: NeighboursMeet(s.queue, order, p, k, x, y)
  {
    var t, base := s.alerts, Inserted(s.alerts, m, now);
    RefusedIff(s, m, now, order, root);
    PlanHasOldRows(t, m, now, order, root, p);
    if Collides(base, s.queue, order, root) {
      var k: nat, j: nat, x: nat, y: nat :| k < |order| && Meet(base, s.queue, order, root, k, j, x, y);
      MeetIsOfNeighbours(t, base, s.queue, order, root, p, k, j, x, y);
      OneKeyForAll(t, m, now, order, root, p, j);
    }
    if AllKeyed(t, order, p, root) {
      if k: nat, x: nat, y: nat :| NeighboursMeet(s.queue, order, p, k, x, y) {
        NeighboursCollide(t, base, s.queue, order, root, p, k, x, y);
      }
    }
  }

  lemma OneLifecycleOneKey(t: Table, m: Message, now: int, order: seq<nat>, root: Identity, i: nat, j: nat)
    requires Reconciled(t) && Consistent(t, m) && JoinsOne(t, m) && Planned(t, m, now, order, root)
    requires i in order && j in order && i < |t| && j < |t|
    ensures t[i].key == t[j].key
  {
    EarlierRow(t, m, now, order, root, i, j);
    SharedKeyIffConnected(t, i, j);
  }

  /** The message is new, merges nothing, and comes after every message of its lifecycle. */
  ghost predicate ComesLast(t: Table, m: Message) {
    JoinsOne(t, m) &&
    forall i: nat | i < |t| && Connected(ArrowsOf(Stored(t) + {m}), m.id, t[i].message.id) :: Before(t[i].message, m)
  }

  /** Such a message is never refused: only late arrivals and merges can be. */
  lemma LastComerIsNeverRefused(s: Store, m: Message, now: int)
    requires Sound(s) && Consistent(s.alerts, m) && ComesLast(s.alerts, m)
    ensures !Refused(s, m, now)
  {
    forall order, root | Planned(s.alerts, m, now, order, root)
      ensures !Collides(Inserted(s.alerts, m, now), s.queue, order, root)
    {
      var p := NewRowIsListed(s.alerts, m, now, order, root);
      LastComerStandsLast(s.alerts, m, now, order, root, p);
      LateArrivalIsRefusedIff(s, m, now, order, root, p);
      RefusedIff(s, m, now, order, root);
    }
  }

  lemma LastComerStandsLast(t: Table, m: Message, now: int, order: seq<nat>, root: Identity, p: nat)
    requires Reconciled(t) && Consistent(t, m) && ComesLast(t, m) && Planned(t, m, now, order, root)
    requires p < |order| && order[p] == |t|
    ensures p == |order| - 1
  {
    var base := Inserted(t, m, now);
    InsertedFacts(t, m, now);
    assert Stored(base) + {m} == Stored(t) + {m};
    SortedIsDistinct(base, order);
    if p < |order| - 1 {
      var i := order[p + 1];
      assert i in order && Before(base[order[p]].message, base[i].message);
      assert Before(t[i].message, m);
      BeforeIsStrictOrder(t[i].message, m, m);
      assert false;
    }
  }

  // ----------------------------------------------------------- every arrival is decided

  ghost function Endpoints(es: Arrows, x: Identity): set<Identity> {
    {x} + (set e | e in es :: e.0) + (set e | e in es :: e.1)
  }

  lemma ConnectedIsEndpoint(es: Arrows, x: Identity, y: Identity)
    requires Connected(es, x, y)
    ensures y in Endpoints(es, x)
  {
    var n: nat :| Reach(es, x, y, n);
    ReachStaysInside(es, x, y, n, Endpoints(es, x));
  }

  lemma CanonicalExists(ms: set<Message>, x: Identity) returns (r: Identity)
    ensures Canonical(ms, x, r)
  {
    var es := ArrowsOf(ms);
    var all := set y | y in Endpoints(es, x) && Candidate(es, x, y);
    ConnectedToSelf(es, x);
    ConnectedIsEndpoint(es, x, x);
    forall y | Candidate(es, x, y) ensures y in all { ConnectedIsEndpoint(es, x, y); }
    assert all != {} by {
      if q :| Root(es, x, q) { assert q in all; } else { assert x in all; }
    }
    var times := map y | y in all && EarliestOf(ms, y).Some? :: EarliestOf(ms, y).value;
    r := LeastRank(all, times);
    forall y | y in all ensures Lookup(times, y) == EarliestOf(ms, y) {}
    forall y | Candidate(es, x, y) ensures RankLeq(EarliestOf(ms, r), r, EarliestOf(ms, y), y) {
      assert y in all && Outranks(times, r, y);
    }
  }

  lemma PlanExists(t: Table, m: Message, now: int) returns (order: seq<nat>, root: Identity)
    requires UniqueIds(t)
    ensures Planned(t, m, now, order, root)
  {
    var base := Inserted(t, m, now);
    var es := ArrowsOf(Stored(base) + {m});
    var component := set y | y in Endpoints(es, m.id) && Connected(es, m.id, y);
    order := SortRows(base, ComponentRows(base, component, |base|));
    SortRowsSorts(base, ComponentRows(base, component, |base|));
    forall i: nat | i < |base| ensures i in order <==> Connected(es, m.id, base[i].message.id) {
      if Connected(es, m.id, base[i].message.id) { ConnectedIsEndpoint(es, m.id, base[i].message.id); }
    }
    root := CanonicalExists(Stored(base) + {m}, m.id);
  }

  /** Every arrival has an outcome. */
  lemma ArrivalExists(s: Store, m: Message, now: int) returns (s': Store)
    requires UniqueIds(s.alerts)
    ensures Arrival(s, m, now, s')
  {
    var order, root := PlanExists(s.alerts, m, now);
    var base := Inserted(s.alerts, m, now);
    var u := AfterRenumbering(AfterParking(base, order, |order|), order, root, now, |order|);
    var queue := Restamped(s.queue, order, root, |order|);
    s' := if queue.None? then s else Store(u, queue.value);
    assert ArrivalWith(s, m, now, s', u, order, root);
  }

  /** Row `i` belongs to the lifecycle whose current row is `current`, and is no newer. */
  predicate InShadowOf(t: Table, current: nat, i: nat)
    requires current < |t| && i < |t|
  {
    && t[i].key == t[current].key && t[i].message.sentAt <= t[current].message.sentAt
    && (i != current ==> !t[i].current && t[i].revision < t[current].revision)
  }

  /** Of all rows that references connect to `m` the given one was sent last. */
  ghost predicate IsNewestOf(t: Table, m: Message, current: nat) {
    current < |t| &&
    forall i: nat | i < |t| && Connected(ArrowsOf(Stored(t) + {m}), m.id, t[i].message.id) :: InShadowOf(t, current, i)
  }

  // ------------------------------------------------------------------------ the store

  /** The CAP rows of `official_alerts` and their queue rows; a call of `Upsert` is one
      transaction under the source lock. */
  class CapStore {
    var rows: Table
    var queue: Queue

    constructor ()
      ensures rows == [] && queue == []
    {
      rows, queue := [], [];
    }

    method Find(x: Identity) returns (found: bool)
      ensures found <==> HasIdentity(rows, x)
    {
      found := false;
      for i := 0 to |rows|
        invariant found <==> exists j :: 0 <= j < i && rows[j].message.id == x
      {
        if rows[i].message.id == x { found := true; }
      }
    }

    /** The two loops over alert rows; every assignment is one UPDATE statement. */
    method Reconcile(order: seq<nat>, root: Identity, now: int)
      requires Rows(rows, order)
      modifies this`rows
      ensures rows == AfterRenumbering(AfterParking(old(rows), order, |order|), order, root, now, |order|)
    {
      ghost var base := rows;
      for n := 0 to |order|
        invariant rows == AfterParking(base, order, n)
      {
        rows := Parked(rows, order[n]);
      }
      ghost var parked := rows;
      for n := 0 to |order|
        invariant rows == AfterRenumbering(parked, order, root, now, n)
      {
        rows := rows[order[n] := FinalRow(rows[order[n]].message, order, root, now, n)];
      }
    }

    /** One UPDATE of all queue rows of one alert; the index is checked row by row. */
    method StampAlert(alert: nat, key: Key, revision: nat) returns (refused: bool)
      modifies this`queue
      ensures match Stamped(old(queue), alert, key, revision, |old(queue)|)
              case None => refused
              case Some(q) => !refused && queue == q
    {
      ghost var before := queue;
      for n := 0 to |queue|
        invariant |queue| == |before| && Stamped(before, alert, key, revision, n) == Some(queue)
      {
        if queue[n].alert == alert {
          var row := queue[n].(key := key, revision := revision);
          if Occupied(queue, n, row) {
            RefusalLasts(before, alert, key, revision, n + 1, |before|);
            return true;
          }
          queue := queue[n := row];
        }
      }
      return false;
    }

    /** The third loop. */
    method Restamp(order: seq<nat>, root: Identity) returns (refused: bool)
      modifies this`queue
      ensures match Restamped(old(queue), order, root, |order|)
              case None => refused
              case Some(q) => !refused && queue == q
    {
      ghost var before := queue;
      for n := 0 to |order|
        invariant Restamped(before, order, root, n) == Some(queue)
      {
        refused := StampAlert(order[n], CapKey(root), n + 1);
        if refused {
          LoopRefusalLasts(before, order, root, n + 1, |order|);
          return true;
        }
      }
      return false;
    }

    /** A refused stamp raises an error, which rolls the transaction back. */
    method Upsert(m: Message, now: int) returns (committed: bool, currentRow: nat, created: bool)
      requires UniqueIds(rows)
      modifies this
      ensures Arrival(Store(old(rows), old(queue)), m, now, Store(rows, queue))
      ensures !committed ==> rows == old(rows) && queue == old(queue)
      ensures committed ==> UpsertStep(old(rows), m, now, rows) && (created <==> !HasIdentity(old(rows), m.id))
      ensures committed ==> currentRow < |rows| && rows[currentRow].current
      ensures committed ==> Connected(ArrowsOf(Stored(rows) + {m}), m.id, rows[currentRow].message.id)
      ensures committed ==> IsNewestOf(rows, m, currentRow)
      ensures Sound(Store(old(rows), old(queue))) && Consistent(old(rows), m) ==>
                (committed <==> !Refused(Store(old(rows), old(queue)), m, now))
    {
      var rows0, queue0 := rows, queue;
      ghost var s0 := Store(rows, queue);
      var found := Find(m.id);
      created := !found;
      if created { rows := rows + [PendingRow(m, now)]; }
      ghost var base := rows;
      var stored := Messages(rows);
      var component, root := CapComponent(stored, m);
      var order := SortRows(rows, ComponentRows(rows, component, |rows|));
      SortRowsSorts(rows, ComponentRows(rows, component, |rows|));
      Reconcile(order, root, now);
      ghost var u := rows;
      assert UpsertWith(rows0, m, now, u, order, root);
      UpsertLeavesCurrent(rows0, m, now, u, order, root);
      currentRow := order[|order| - 1];
      var refused := Restamp(order, root);
      committed := !refused;
      if refused { rows, queue := rows0, queue0; }
      assert ArrivalWith(s0, m, now, Store(rows, queue), u, order, root);
      if Sound(s0) && Consistent(s0.alerts, m) { RefusedIff(s0, m, now, order, root); }
    }
  }

  lemma UpsertLeavesCurrent(t: Table, m: Message, now: int, u: Table, order: seq<nat>, root: Identity)
    requires UpsertWith(t, m, now, u, order, root)
    ensures order != [] && order[|order| - 1] < |u| && u[order[|order| - 1]].current
    ensures Connected(ArrowsOf(Stored(u) + {m}), m.id, u[order[|order| - 1]].message.id)
    ensures IsNewestOf(u, m, order[|order| - 1])
  {
    var base := Inserted(t, m, now);
    UpsertEffect(t, m, now, u, order, root);
    StoredOfSame(base, u);
    assert HasIdentity(t, m.id) || base[|t|].message.id == m.id;
    IncomingIsListed(base, m, order);
    assert FinalAt(base, u, order, root, now, |order| - 1);
    assert order[|order| - 1] in order;
    forall i: nat | i < |u| && Connected(ArrowsOf(Stored(u) + {m}), m.id, u[i].message.id)
      ensures InShadowOf(u, order[|order| - 1], i)
    {
      assert i in order;
      var k :| 0 <= k < |order| && order[k] == i;
      ListedInShadow(base, u, order, root, now, k);
    }
  }

  lemma ListedInShadow(base: Table, u: Table, order: seq<nat>, root: Identity, now: int, k: nat)
    requires Sorted(base, order) && SameMessages(base, u) && k < |order|
    requires forall j | 0 <= j < |order| :: FinalAt(base, u, order, root, now, j)
    ensures order[|order| - 1] < |u| && order[k] < |u| && InShadowOf(u, order[|order| - 1], order[k])
  {
    assert FinalAt(base, u, order, root, now, k) && FinalAt(base, u, order, root, now, |order| - 1);
    if k < |order| - 1 { BeforeIffSentBefore(u[order[k]].message, u[order[|order| - 1]].message); }
  }

  lemma {:induction false} RefusalLasts(q: Queue, alert: nat, key: Key, revision: nat, n: nat, m: nat)
    requires n <= m <= |q| && Stamped(q, alert, key, revision, n).None?
    ensures Stamped(q, alert, key, revision, m).None?
  {
    if n < m { RefusalLasts(q, alert, key, revision, n, m - 1); }
  }

  lemma {:induction false} LoopRefusalLasts(q: Queue, order: seq<nat>, root: Identity, n: nat, m: nat)
    requires n <= m <= |order| && Restamped(q, order, root, n).None?
    ensures Restamped(q, order, root, m).None?
  {
    if n < m { LoopRefusalLasts(q, order, root, n, m - 1); }
  }
}
