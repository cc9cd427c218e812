/** Replays of stored CAP messages, and the one kind of message that leaves a stale name. */
module CapReplays {
  import opened Optional
  import opened CapMessages
  import opened Components
  import opened ReferenceGraph
  import opened CapLifecycle
  import opened CapInvariants
  import opened CapRuns
  import CapTransactions

  /** Row `i` has the canonical name and the status of clock `now`. */
  ghost predicate UpToDate(t: Table, now: int, i: nat)
    requires i < |t|
  {
    NamedAt(t, i) && t[i].status == ReconciledStatus(t[i].message, t[i].current, now)
  }

  /** A replay changes no row exactly when every row of its lifecycle is up to date;
      otherwise it brings the lifecycle up to date. */
  lemma ReplayChangesNothingIff(t: Table, m: Message, now: int, u: Table)
    requires Reconciled(t) && Consistent(t, m) && m in Stored(t) && UpsertStep(t, m, now, u)
    ensures u == t <==> forall i: nat | i < |t| && Connected(GraphOf(t), m.id, t[i].message.id) :: UpToDate(t, now, i)
    ensures |u| == |t| && forall i: nat | i < |t| && Connected(GraphOf(t), m.id, t[i].message.id) :: UpToDate(u, now, i)
  {
    var own: nat :| own < |t| && t[own].message == m;
    var order, root :| UpsertWith(t, m, now, u, order, root);
    UpsertFacts(t, m, now, u, order, root);
    UpsertKeepsReconciled(t, m, now, u);
    assert Inserted(t, m, now) == t;
    StoredOfSame(t, u);
    forall i: nat | i < |t|
      ensures if Connected(GraphOf(t), m.id, t[i].message.id)
              then UpToDate(u, now, i) && (u[i] == t[i] <==> UpToDate(t, now, i))
              else u[i] == t[i]
    {
      if Connected(GraphOf(u), m.id, u[i].message.id) {
        TouchedRow(t, m, now, u, order, root, i);
        RewrittenRowIsNamed(t, m, now, u, i);
        if UpToDate(t, now, i) { RewrittenAsItWas(t, m, now, u, order, root, i); }
      } else {
        UntouchedRow(t, m, now, u, order, root, i);
      }
    }
  }

  lemma RewrittenAsItWas(t: Table, m: Message, now: int, u: Table, order: seq<nat>, root: Identity, i: nat)
    requires Reconciled(t) && Reconciled(u) && Consistent(t, m)
    requires m in Stored(t) && UpsertWith(t, m, now, u, order, root)
    requires SameMessages(t, u) && i < |t| && Connected(GraphOf(u), m.id, u[i].message.id) && UpToDate(t, now, i)
    ensures u[i] == t[i]
  {
    StoredOfSame(t, u);
    TouchedRow(t, m, now, u, order, root, i);
    UpsertFacts(t, m, now, u, order, root);
    SameMessagesSameNumbering(t, u, i, i);
    CanonicalIsUnique(Stored(t), m.id, root, t[i].message.id, t[i].key.root);
    SameRowForSameMessage(t, u, i);
  }

  /** Previous links of equal messages are equal, as identities are unique. */
  lemma SameRowForSameMessage(t: Table, u: Table, i: nat)
    requires UniqueIds(t) && SameMessages(t, u) && i < |t| && SamePrevious(t, t[i].previous, u, u[i].previous)
    ensures t[i].previous == u[i].previous
  {}

  // ------------------------------------------------- a cross-sender sent-time hint

  const FIRST := Identity("a", "1")
  const SECOND := Identity("a", "2")
  const UPDATE_ID := Identity("a", "3")
  const OTHER_ID := Identity("b", "1")

  /** An update that merges two messages nobody has received yet. */
  const MERGING := Message(UPDATE_ID,
    Some([RawReference(Some("a"), "1", Some(5)), RawReference(Some("a"), "2", Some(7))]),
    [], 9, Update, Active, None, 0)

  /** A plain alert of another sender that refers to the second of them. */
  const FOREIGN := Message(OTHER_ID,
    Some([RawReference(Some("a"), "2", Some(1))]), [], 9, Alert, Active, None, 1)

  lemma ReferencesOfExample()
    ensures References(MERGING) == [FIRST, SECOND] && References(FOREIGN) == [SECOND]
    ensures Links(MERGING) == {FIRST, SECOND} && Links(FOREIGN) == {}
    ensures Hints(MERGING, FIRST) == {5} && Hints(FOREIGN, SECOND) == {1} && Hints(FOREIGN, FIRST) == {}
  {
    var r1, r2 := RawReference(Some("a"), "1", Some(5)), RawReference(Some("a"), "2", Some(7));
    var r3 := RawReference(Some("a"), "2", Some(1));
    assert Referents([r2], "a") == [SECOND] by { assert [r2][1..] == []; }
    assert Referents([r1, r2], "a") == [FIRST, SECOND] by { assert [r1, r2][1..] == [r2]; }
    assert Referents([r3], "b") == [SECOND] by { assert [r3][1..] == []; }
    assert r1 in MERGING.references.value && r3 in FOREIGN.references.value;
  }

  lemma GraphsOfExample()
    ensures ArrowsOf({MERGING}) == ArrowsOf({MERGING, FOREIGN}) == {(UPDATE_ID, FIRST), (UPDATE_ID, SECOND)}
  {
    ReferencesOfExample();
    forall e ensures e in ArrowsOf({MERGING, FOREIGN}) <==> e in {(UPDATE_ID, FIRST), (UPDATE_ID, SECOND)} {
      if e == (UPDATE_ID, FIRST) || e == (UPDATE_ID, SECOND) {
        assert MERGING in {MERGING, FOREIGN} && e.1 in Links(MERGING);
      }
    }
    forall e ensures e in ArrowsOf({MERGING}) <==> e in {(UPDATE_ID, FIRST), (UPDATE_ID, SECOND)} {
      if e == (UPDATE_ID, FIRST) || e == (UPDATE_ID, SECOND) {
        assert MERGING in {MERGING} && e.1 in Links(MERGING);
      }
    }
  }

  lemma TimesOfExample()
    ensures EarliestOf({MERGING}, FIRST) == Some(5) && EarliestOf({MERGING}, SECOND) == Some(7)
    ensures EarliestOf({MERGING} + {FOREIGN}, FIRST) == Some(5)
  {
    ReferencesOfExample();
    assert Hints(MERGING, SECOND) == {7} by {
      assert RawReference(Some("a"), "2", Some(7)) in MERGING.references.value;
    }
    forall x ensures Times({MERGING}, x) == TimesFrom(MERGING, x) {
      assert {} + {MERGING} == {MERGING};
      TimesOneMore({}, MERGING, x);
    }
    TimesOneMore({MERGING}, FOREIGN, FIRST);
  }

  const ARROWS: Arrows := {(UPDATE_ID, FIRST), (UPDATE_ID, SECOND)}

  /** The two missing messages are the roots of the lifecycle. */
  lemma RootsOfExample(r: Identity)
    ensures Root(ARROWS, UPDATE_ID, r) <==> r == FIRST || r == SECOND
  {
    ConnectedToSelf(ARROWS, UPDATE_ID);
    ConnectedStep(ARROWS, UPDATE_ID, UPDATE_ID, FIRST);
    ConnectedStep(ARROWS, UPDATE_ID, UPDATE_ID, SECOND);
    if Root(ARROWS, UPDATE_ID, r) {
      var n: nat :| Reach(ARROWS, UPDATE_ID, r, n);
      ReachStaysInside(ARROWS, UPDATE_ID, r, n, {UPDATE_ID, FIRST, SECOND});
      assert (UPDATE_ID, FIRST) in ARROWS;
    }
  }

  /** The earlier of them names it. */
  lemma NameOfExample(r: Identity)
    requires Canonical({MERGING}, UPDATE_ID, r)
    ensures r == FIRST && Candidate(ArrowsOf({MERGING}), UPDATE_ID, SECOND)
  {
    GraphsOfExample();
    TimesOfExample();
    RootsOfExample(FIRST);
    RootsOfExample(SECOND);
    RootsOfExample(r);
    assert Candidate(ARROWS, UPDATE_ID, FIRST) && Candidate(ARROWS, UPDATE_ID, r);
  }

  /** A cross-sender reference with an earlier sent time overtakes the lifecycle's name
      without reconciling the lifecycle: the stored name is stale from then on. */
  lemma CrossSenderHintLeavesStaleName(tables: seq<Table>, now: int)
    requires IsRun([Commit(MERGING, now), Commit(FOREIGN, now)], tables)
    ensures Named(tables[1]) && !Named(tables[2])
  {
    var events := [Commit(MERGING, now), Commit(FOREIGN, now)];
    var t, u := tables[1], tables[2];
    FirstTableOfExample(tables, now);
    ReferencesOfExample();
    GraphsOfExample();
    TimesOfExample();
    assert Step(t, events[1], u);
    assert KeyedAt(t, 0) && NamedAt(t, 0);
    NameOfExample(t[0].key.root);
    ForeignStaysApart();
    assert Overtakes({MERGING}, FOREIGN, UPDATE_ID, FIRST, SECOND, 1);
    assert Disturbs(t, FOREIGN, 0);
    NamingSurvivesUpsert(t, FOREIGN, now, u);
  }

  /** There is such a run. */
  lemma CrossSenderRunExists(now: int) returns (tables: seq<Table>)
    ensures IsRun([Commit(MERGING, now), Commit(FOREIGN, now)], tables)
  {
    var t := UpsertExists([], MERGING, now);
    UpsertKeepsIds([], MERGING, now, t);
    var u := UpsertExists(t, FOREIGN, now);
    tables := [[], t, u];
  }

  lemma UpsertExists(t: Table, m: Message, now: int) returns (u: Table)
    requires UniqueIds(t)
    ensures UpsertStep(t, m, now, u)
  {
    var order, root := CapTransactions.PlanExists(t, m, now);
    var base := Inserted(t, m, now);
    u := AfterRenumbering(AfterParking(base, order, |order|), order, root, now, |order|);
    assert UpsertWith(t, m, now, u, order, root);
  }

  lemma UpsertKeepsIds(t: Table, m: Message, now: int, u: Table)
    requires UniqueIds(t) && Consistent(t, m) && UpsertStep(t, m, now, u)
    ensures UniqueIds(u)
  {
    var order, root :| UpsertWith(t, m, now, u, order, root);
    UpsertFacts(t, m, now, u, order, root);
  }

  lemma ForeignStaysApart()
    ensures !Connected(ArrowsOf({MERGING} + {FOREIGN}), OTHER_ID, UPDATE_ID)
  {
    GraphsOfExample();
    var more := ArrowsOf({MERGING} + {FOREIGN});
    assert {MERGING} + {FOREIGN} == {MERGING, FOREIGN};
    if Connected(more, OTHER_ID, UPDATE_ID) {
      var n: nat :| Reach(more, OTHER_ID, UPDATE_ID, n);
      ReachStaysInside(more, OTHER_ID, UPDATE_ID, n, {OTHER_ID});
    }
  }

  lemma FirstRunOfExample(tables: seq<Table>, now: int)
    requires IsRun([Commit(MERGING, now), Commit(FOREIGN, now)], tables)
    ensures IsRun([Commit(MERGING, now)], tables[..2])
  {
    var events := [Commit(MERGING, now), Commit(FOREIGN, now)];
    assert Step(tables[0], events[0], tables[1]);
  }

  lemma FirstCommitOfExample(now: int)
    ensures Committed([Commit(MERGING, now)]) == {MERGING} && SameSender(MERGING)
  {
    var first := [Commit(MERGING, now)];
    ReferencesOfExample();
    assert first[0].m in Committed(first);
  }

  lemma FirstTableOfExample(tables: seq<Table>, now: int)
    requires IsRun([Commit(MERGING, now), Commit(FOREIGN, now)], tables)
    ensures var t := tables[1];
            Reconciled(t) && Named(t) && Stored(t) == {MERGING} && |t| == 1 && t[0].message == MERGING &&
            Consistent(t, FOREIGN)
  {
    var first := [Commit(MERGING, now)];
    FirstRunOfExample(tables, now);
    FirstCommitOfExample(now);
    assert first[..1] == first;
    ReachableIsReconciled(first, tables[..2], 1);
    ReachableNames(first, tables[..2], 1);
    OneMessageOneRow(tables[1]);
  }

  lemma OneMessageOneRow(t: Table)
    requires UniqueIds(t) && Stored(t) == {MERGING}
    ensures |t| == 1 && t[0].message == MERGING
  {
    assert forall i: nat | i < |t| :: t[i].message in Stored(t);
    assert MERGING in Stored(t);
    if |t| > 1 {
      FirstRowsDiffer(t);
      assert false;
    }
  }

  lemma FirstRowsDiffer(t: Table)
    requires UniqueIds(t) && |t| > 1
    ensures t[0].message != t[1].message
  {}
}
