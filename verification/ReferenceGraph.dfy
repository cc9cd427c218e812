/** Connectivity in a directed graph read in both directions, its components and the
    candidates for a component's root. */
module Components {
  import opened CapMessages

  /** `(x, p)` says that a message with identity `x` refers to `p`. */
  type Arrows = set<(Identity, Identity)>

  predicate Adjacent(es: Arrows, a: Identity, b: Identity) {
    (a, b) in es || (b, a) in es
  }

  ghost predicate Reach(es: Arrows, a: Identity, b: Identity, n: nat)
    decreases n
  {
    if n == 0 then a == b else exists c :: Reach(es, a, c, n - 1) && Adjacent(es, c, b)
  }

  /** A path of references, each read in either direction, leads from `a` to `b`. */
  ghost predicate Connected(es: Arrows, a: Identity, b: Identity) {
    exists n: nat :: Reach(es, a, b, n)
  }

  lemma ConnectedToSelf(es: Arrows, a: Identity)
    ensures Connected(es, a, a)
  {
    assert Reach(es, a, a, 0);
  }

  lemma ConnectedStep(es: Arrows, a: Identity, b: Identity, c: Identity)
    requires Connected(es, a, b) && Adjacent(es, b, c)
    ensures Connected(es, a, c)
  {
    var n: nat :| Reach(es, a, b, n);
    assert Reach(es, a, c, n + 1);
  }

  lemma {:induction false} ReachIsTransitive(es: Arrows, a: Identity, b: Identity, c: Identity, n: nat)
    requires Connected(es, a, b) && Reach(es, b, c, n)
    ensures Connected(es, a, c)
    decreases n
  {
    if n > 0 {
      var d :| Reach(es, b, d, n - 1) && Adjacent(es, d, c);
      ReachIsTransitive(es, a, b, d, n - 1);
      ConnectedStep(es, a, d, c);
    }
  }

  lemma ConnectedIsTransitive(es: Arrows, a: Identity, b: Identity, c: Identity)
    requires Connected(es, a, b) && Connected(es, b, c)
    ensures Connected(es, a, c)
  {
    var n: nat :| Reach(es, b, c, n);
    ReachIsTransitive(es, a, b, c, n);
  }

  lemma {:induction false} ReachIsSymmetric(es: Arrows, a: Identity, b: Identity, n: nat)
    requires Reach(es, a, b, n)
    ensures Connected(es, b, a)
    decreases n
  {
    ConnectedToSelf(es, b);
    if n > 0 {
      var c :| Reach(es, a, c, n - 1) && Adjacent(es, c, b);
      ConnectedStep(es, b, b, c);
      ReachIsSymmetric(es, a, c, n - 1);
      ConnectedIsTransitive(es, b, c, a);
    }
  }

  /** Connected identities are connected to the same identities. */
  lemma ConnectedIsEquivalence(es: Arrows, a: Identity, b: Identity)
    requires Connected(es, a, b)
    ensures Connected(es, b, a)
    ensures forall c :: Connected(es, a, c) <==> Connected(es, b, c)
  {
    var n: nat :| Reach(es, a, b, n);
    ReachIsSymmetric(es, a, b, n);
    forall c ensures Connected(es, a, c) <==> Connected(es, b, c) {
      if Connected(es, a, c) { ConnectedIsTransitive(es, b, a, c); }
      if Connected(es, b, c) { ConnectedIsTransitive(es, a, b, c); }
    }
  }

  /** A set that holds `a` and is closed under adjacency holds all that `a` reaches. */
  lemma {:induction false} ReachStaysInside(es: Arrows, a: Identity, b: Identity, n: nat, inside: set<Identity>)
    requires a in inside && Reach(es, a, b, n)
    requires forall x, y :: x in inside && Adjacent(es, x, y) ==> y in inside
    ensures b in inside
    decreases n
  {
    if n > 0 {
      var c :| Reach(es, a, c, n - 1) && Adjacent(es, c, b);
      ReachStaysInside(es, a, c, n - 1, inside);
    }
  }

  /** New arrows that touch only the component of `hub` leave every other component,
      and the connections inside it, as they were. */
  lemma {:induction false} UntouchedReach(es: Arrows, more: Arrows, hub: Identity, a: Identity, b: Identity, n: nat)
    requires es <= more && Reach(more, a, b, n) && !Connected(more, hub, a)
    requires forall e :: e in more - es ==> Connected(more, hub, e.0)
    ensures Connected(es, a, b) && !Connected(more, hub, b)
    decreases n
  {
    ConnectedToSelf(es, a);
    if n > 0 {
      var c :| Reach(more, a, c, n - 1) && Adjacent(more, c, b);
      UntouchedReach(es, more, hub, a, c, n - 1);
      if Connected(more, hub, b) { ConnectedStep(more, hub, b, c); }
      ConnectedStep(es, a, c, b);
    }
  }

  lemma {:induction false} ReachGrows(es: Arrows, more: Arrows, a: Identity, b: Identity, n: nat)
    requires es <= more && Reach(es, a, b, n)
    ensures Reach(more, a, b, n)
    decreases n
  {
    if n > 0 {
      var c :| Reach(es, a, c, n - 1) && Adjacent(es, c, b);
      ReachGrows(es, more, a, c, n - 1);
      assert Adjacent(more, c, b);
    }
  }

  lemma ConnectedGrows(es: Arrows, more: Arrows, a: Identity, b: Identity)
    requires es <= more && Connected(es, a, b)
    ensures Connected(more, a, b)
  {
    var n: nat :| Reach(es, a, b, n);
    ReachGrows(es, more, a, b, n);
  }

  lemma UntouchedComponent(es: Arrows, more: Arrows, hub: Identity, a: Identity)
    requires es <= more && !Connected(more, hub, a)
    requires forall e :: e in more - es ==> Connected(more, hub, e.0)
    ensures forall b :: Connected(es, a, b) <==> Connected(more, a, b)
  {
    forall b ensures Connected(es, a, b) <==> Connected(more, a, b) {
      if Connected(es, a, b) { ConnectedGrows(es, more, a, b); }
      if Connected(more, a, b) {
        var n: nat :| Reach(more, a, b, n);
        UntouchedReach(es, more, hub, a, b, n);
      }
    }
  }

  /** `r` lies in the component of `x`, and nothing of that component precedes it. */
  ghost predicate Root(es: Arrows, x: Identity, r: Identity) {
    Connected(es, x, r) && !exists p :: (r, p) in es && Connected(es, x, p)
  }

  /** The roots of the component, or all of it when references form only cycles. */
  ghost predicate Candidate(es: Arrows, x: Identity, r: Identity) {
    Connected(es, x, r) && (Root(es, x, r) || !exists q :: Root(es, x, q))
  }

  ghost predicate AreCandidates(es: Arrows, x: Identity, candidates: set<Identity>) {
    candidates != {} && forall y :: y in candidates <==> Candidate(es, x, y)
  }

  lemma CandidatesAre(es: Arrows, x: Identity, component: set<Identity>, roots: set<Identity>)
    requires forall y :: y in component <==> Connected(es, x, y)
    requires forall y :: y in roots <==> Root(es, x, y)
    ensures AreCandidates(es, x, if roots == {} then component else roots)
  {
    ConnectedToSelf(es, x);
    assert roots != {} ==> exists q :: q in roots;
  }

  /** Candidates belong to the component, not to the member that names it. */
  lemma CandidatesOfComponent(es: Arrows, x: Identity, y: Identity)
    requires Connected(es, x, y)
    ensures forall r :: Root(es, x, r) <==> Root(es, y, r)
    ensures forall r :: Candidate(es, x, r) <==> Candidate(es, y, r)
  {
    ConnectedIsEquivalence(es, x, y);
    assert forall r :: Root(es, x, r) <==> Root(es, y, r);
  }
}

/** The reference graph of a set of CAP messages: sent times, the canonical identity of
    a component, and the traversal that computes component and canonical identity. */
module ReferenceGraph {
  import opened Optional
  import opened CapMessages
  import opened Components

  /** The referenced identities that give `m` edges: those of its own sender. */
  function Links(m: Message): set<Identity> {
    set x | x in References(m) && x.sender == m.id.sender
  }

  ghost function ArrowsOf(ms: set<Message>): Arrows {
    set m, x | m in ms && x in Links(m) :: (m.id, x)
  }

  // --------------------------------------------------------------- sent times

  /** The times `m` reports for `x`: its own `sent`, and its hints. */
  ghost function TimesFrom(m: Message, x: Identity): set<int> {
    (if m.id == x then {m.sentAt} else {}) + Hints(m, x)
  }

  ghost function Times(ms: set<Message>, x: Identity): set<int> {
    set m, t | m in ms && t in TimesFrom(m, x) :: t
  }

  lemma EarliestExists(times: set<int>) returns (t: Option<int>)
    ensures IsEarliest(times, t)
  {
    if times == {} {
      t := None;
    } else {
      assert (forall u :: u !in times) ==> times == {};
      var u :| u in times;
      var rest := EarliestExists(times - {u});
      t := if rest.None? || u <= rest.value then Some(u) else rest;
      assert forall v :: v in times ==> v == u || v in times - {u};
    }
  }

  ghost function Earliest(times: set<int>): (t: Option<int>)
    ensures IsEarliest(times, t)
  {
    assert exists t :: IsEarliest(times, t) by { var t := EarliestExists(times); }
    var t :| IsEarliest(times, t);
    t
  }

  ghost function EarliestOf(ms: set<Message>, x: Identity): Option<int> {
    Earliest(Times(ms, x))
  }

  /** The root's sort key: earliest known time, unknown times last, then identity. */
  predicate RankLeq(ta: Option<int>, a: Identity, tb: Option<int>, b: Identity) {
    if ta == tb then IdentityLeq(a, b) else tb.None? || (ta.Some? && ta.value < tb.value)
  }

  lemma RankOrderIsTotal(ta: Option<int>, a: Identity, tb: Option<int>, b: Identity)
    ensures RankLeq(ta, a, tb, b) || RankLeq(tb, b, ta, a)
    ensures RankLeq(ta, a, tb, b) && RankLeq(tb, b, ta, a) ==> a == b
  {
    IdentityOrderIsTotal(a, b);
  }

  lemma RankOrderIsTransitive(ta: Option<int>, a: Identity, tb: Option<int>, b: Identity, tc: Option<int>, c: Identity)
    requires RankLeq(ta, a, tb, b) && RankLeq(tb, b, tc, c)
    ensures RankLeq(ta, a, tc, c)
  {
    if ta == tb == tc { IdentityOrderIsTransitive(a, b, c); }
  }

  // ------------------------------------------------------ the canonical identity

  ghost predicate Canonical(ms: set<Message>, x: Identity, r: Identity) {
    Candidate(ArrowsOf(ms), x, r) &&
    forall y :: Candidate(ArrowsOf(ms), x, y) ==> RankLeq(EarliestOf(ms, r), r, EarliestOf(ms, y), y)
  }

  /** A component has at most one canonical identity, whichever member names it. */
  lemma CanonicalIsUnique(ms: set<Message>, x: Identity, r: Identity, y: Identity, s: Identity)
    requires Connected(ArrowsOf(ms), x, y)
    requires Canonical(ms, x, r) && Canonical(ms, y, s)
    ensures r == s
  {
    CandidatesOfComponent(ArrowsOf(ms), x, y);
    RankOrderIsTotal(EarliestOf(ms, r), r, EarliestOf(ms, s), s);
  }

  lemma CanonicalOfComponent(ms: set<Message>, x: Identity, y: Identity, r: Identity)
    requires Connected(ArrowsOf(ms), x, y) && Canonical(ms, x, r)
    ensures Canonical(ms, y, r)
  {
    CandidatesOfComponent(ArrowsOf(ms), x, y);
  }

  // ----------------------------------------------- the same, read off the messages

  /** An arrow is a reference of a message to an identity of its own sender. */
  lemma ArrowIff(ms: set<Message>, a: Identity, b: Identity)
    ensures (a, b) in ArrowsOf(ms) <==> exists m :: m in ms && m.id == a && RefersTo(m, b) && b.sender == a.sender
  {
    forall m ensures b in References(m) <==> RefersTo(m, b) { ReferencesIff(m, b); }
    if m :| m in ms && m.id == a && RefersTo(m, b) && b.sender == a.sender {
      assert b in Links(m);
    }
  }

  /** `m` dates `x`: it is `x` itself, or one of its references gives `x` with a time. */
  ghost predicate Dates(m: Message, x: Identity, t: int) {
    || (m.id == x && m.sentAt == t)
    || (m.references.Some? && exists r :: r in m.references.value && r.sent == Some(t) && Gives(r, m.id.sender, x))
  }

  lemma TimeIff(ms: set<Message>, x: Identity, t: int)
    ensures t in Times(ms, x) <==> exists m :: m in ms && Dates(m, x, t)
  {
    forall m ensures t in TimesFrom(m, x) <==> Dates(m, x, t) { HintsIff(m, x, t); }
  }

  /** The message dates `x` no later than `t`. */
  ghost predicate DatedBy(ms: set<Message>, x: Identity, t: int) {
    exists m, u :: m in ms && Dates(m, x, u) && u <= t
  }

  lemma EarliestDecides(ms: set<Message>, x: Identity, t: int)
    ensures DatedBy(ms, x, t) <==> EarliestOf(ms, x).Some? && EarliestOf(ms, x).value <= t
  {
    forall u ensures u in Times(ms, x) <==> exists m :: m in ms && Dates(m, x, u) { TimeIff(ms, x, u); }
    if DatedBy(ms, x, t) {
      var m, u :| m in ms && Dates(m, x, u) && u <= t;
      assert u in Times(ms, x);
    }
    if EarliestOf(ms, x).Some? && EarliestOf(ms, x).value <= t {
      var u := EarliestOf(ms, x).value;
      var m :| m in ms && Dates(m, x, u);
    }
  }

  /** The canonical identity is dated as early as any other candidate, a candidate without
      a date comes last, and among equally early ones the smallest identity is taken. */
  lemma CanonicalComesFirst(ms: set<Message>, x: Identity, r: Identity, y: Identity)
    requires Canonical(ms, x, r) && Candidate(ArrowsOf(ms), x, y)
    ensures forall t :: DatedBy(ms, y, t) ==> DatedBy(ms, r, t)
    ensures (forall t :: DatedBy(ms, r, t) ==> DatedBy(ms, y, t)) ==> r == y || IdentityPrecedes(r, y)
  {
    var er, ey := EarliestOf(ms, r), EarliestOf(ms, y);
    forall t ensures DatedBy(ms, y, t) <==> ey.Some? && ey.value <= t { EarliestDecides(ms, y, t); }
    forall t ensures DatedBy(ms, r, t) <==> er.Some? && er.value <= t { EarliestDecides(ms, r, t); }
    if forall t :: DatedBy(ms, r, t) ==> DatedBy(ms, y, t) {
      if er.Some? { assert DatedBy(ms, r, er.value); }
      if ey.Some? { assert DatedBy(ms, y, ey.value); }
      StringOrderIsLexicographic(r.sender, y.sender);
      StringOrderIsLexicographic(r.identifier, y.identifier);
    }
  }

  // ------------------------------------------------------------ the dictionaries

  /** The three dictionaries that the source fills while it reads messages. */
  class Graph {
    var adjacency: map<Identity, set<Identity>>
    var predecessors: map<Identity, set<Identity>>
    var sentTimes: map<Identity, int>

    /** Well-formed dictionaries that hold exactly the arrows `es`. */
    ghost predicate Holds(es: Arrows)
      reads this`adjacency, this`predecessors
    {
      && adjacency.Keys == predecessors.Keys
      && (forall x, y :: x in adjacency && y in adjacency[x] ==> y in adjacency)
      && (forall x, y :: x in adjacency && y in adjacency[x] <==> Adjacent(es, x, y))
      && (forall x, y :: x in predecessors && y in predecessors[x] <==> (x, y) in es)
    }

    /** The time kept for each identity is the earliest of `times`. */
    ghost predicate Dated(times: Identity -> set<int>)
      reads this`sentTimes
    {
      forall x :: IsEarliest(times(x), Lookup(sentTimes, x))
    }

    /** The dictionaries describe exactly the graph of `ms`. */
    ghost predicate Describes(ms: set<Message>)
      reads this
    {
      && Holds(ArrowsOf(ms))
      && (forall m :: m in ms ==> m.id in adjacency)
      && Dated(TimesOf(ms))
    }

    constructor ()
      ensures Describes({})
    {
      adjacency, predecessors, sentTimes := map[], map[], map[];
    }

    /** Register `x`, and keep the smallest time reported for it so far. */
    method AddNode(x: Identity, sent: Option<int>, ghost es: Arrows, ghost times: Identity -> set<int>,
                   ghost reported: set<int>)
      requires Holds(es) && Dated(times) && IsEarliest(reported, sent)
      modifies this
      ensures Holds(es) && adjacency.Keys == old(adjacency.Keys) + {x}
      ensures Dated(Reported(times, x, reported))
    {
      if x !in adjacency { adjacency := adjacency[x := {}]; }
      if x !in predecessors { predecessors := predecessors[x := {}]; }
      if sent.Some? && (x !in sentTimes || sent.value < sentTimes[x]) {
        sentTimes := sentTimes[x := sent.value];
      }
    }

    /** Record that a message with identity `x` refers to `p`. */
    method AddArrow(x: Identity, p: Identity, ghost es: Arrows)
      requires Holds(es) && x in adjacency && p in adjacency
      modifies this`adjacency, this`predecessors
      ensures Holds(es + {(x, p)}) && adjacency.Keys == old(adjacency.Keys)
    {
      predecessors := predecessors[x := predecessors[x] + {p}];
      adjacency := adjacency[x := adjacency[x] + {p}];
      adjacency := adjacency[p := adjacency[p] + {x}];
    }

    /** One reference of a message: a node with its hint, and an arrow within one sender. */
    method AddReference(x: Identity, p: Identity, hint: Option<int>, ghost es: Arrows,
                        ghost times: Identity -> set<int>, ghost hints: set<int>)
      requires Holds(es) && x in adjacency && Dated(times) && IsEarliest(hints, hint)
      modifies this
      ensures Holds(if p.sender == x.sender then es + {(x, p)} else es)
      ensures Dated(Reported(times, p, hints))
      ensures old(adjacency.Keys) <= adjacency.Keys
    {
      AddNode(p, hint, es, times, hints);
      if p.sender == x.sender {
        AddArrow(x, p, es);
      }
    }

    method AddReferences(m: Message, ghost ms: set<Message>)
      requires m.id in adjacency
      requires Holds(ArrowsUpTo(ms, m, 0)) && Dated(TimesUpTo(ms, m, 0))
      modifies this
      ensures old(adjacency.Keys) <= adjacency.Keys
      ensures Holds(ArrowsUpTo(ms, m, |References(m)|)) && Dated(TimesUpTo(ms, m, |References(m)|))
    {
      var hinted := ReferenceSentTimes(m);
      var refs := References(m);
      for i := 0 to |refs|
        invariant old(adjacency.Keys) <= adjacency.Keys
        invariant Holds(ArrowsUpTo(ms, m, i)) && Dated(TimesUpTo(ms, m, i))
      {
        AddReference(m.id, refs[i], Lookup(hinted, refs[i]), ArrowsUpTo(ms, m, i), TimesUpTo(ms, m, i),
                     Hints(m, refs[i]));
        OneMoreReference(ms, m, i);
        SameDates(Reported(TimesUpTo(ms, m, i), refs[i], Hints(m, refs[i])), TimesUpTo(ms, m, i + 1));
      }
    }

    /** Read one message: its node, the nodes it names, and the edges to its own sender. */
    method AddMessage(m: Message, ghost ms: set<Message>)
      requires Describes(ms)
      modifies this
      ensures Describes(ms + {m})
    {
      AddNode(m.id, Some(m.sentAt), ArrowsOf(ms), TimesOf(ms), {m.sentAt});
      NoReferenceYet(ms, m);
      SameDates(Reported(TimesOf(ms), m.id, {m.sentAt}), TimesUpTo(ms, m, 0));
      AddReferences(m, ms);
      AllOfMessage(ms, m);
      SameDates(TimesUpTo(ms, m, |References(m)|), TimesOf(ms + {m}));
    }

    /** Depth-first traversal with a list of pending identities, in any neighbour order. */
    method Traverse(start: Identity, ghost es: Arrows) returns (component: set<Identity>)
      requires Holds(es) && start in adjacency
      ensures component <= adjacency.Keys
      ensures forall x :: x in component <==> Connected(es, start, x)
    {
      component := {};
      var pending := [start];
      ConnectedToSelf(es, start);
      while pending != []
        invariant component <= adjacency.Keys
        invariant forall x :: x in pending ==> x in adjacency
        invariant forall x :: x in component || x in pending ==> Connected(es, start, x)
        invariant start in component || start in pending
        invariant forall x, y :: x in component && Adjacent(es, x, y) ==> y in component || y in pending
        decreases adjacency.Keys - component, |pending|
      {
        var x := pending[|pending| - 1];
        assert pending == pending[..|pending| - 1] + [x];
        pending := pending[..|pending| - 1];
        if x !in component {
          component := component + {x};
          var neighbours := Elements(adjacency[x]);
          forall y | y in neighbours ensures Connected(es, start, y) { ConnectedStep(es, start, x, y); }
          pending := pending + neighbours;
        }
      }
      forall x | Connected(es, start, x) ensures x in component {
        var n: nat :| Reach(es, start, x, n);
        ReachStaysInside(es, start, x, n, component);
      }
    }

    /** The roots of the component, or the whole component when it has none. */
    method Candidates(component: set<Identity>, start: Identity, ghost es: Arrows) returns (candidates: set<Identity>)
      requires Holds(es) && component <= adjacency.Keys
      requires forall x :: x in component <==> Connected(es, start, x)
      ensures AreCandidates(es, start, candidates)
    {
      var roots := set x | x in component && predecessors[x] * component == {};
      RootsAreMembers(component, start, es);
      candidates := if roots == {} then component else roots;
      CandidatesAre(es, start, component, roots);
    }

    /** The candidate of least rank. */
    method PickCanonical(candidates: set<Identity>, start: Identity,
                         ghost ms: set<Message>) returns (canonical: Identity)
      requires Dated(TimesOf(ms)) && AreCandidates(ArrowsOf(ms), start, candidates)
      ensures Canonical(ms, start, canonical)
    {
      ghost var least := LeastRank(candidates, sentTimes);
      canonical :| canonical in candidates && forall y :: y in candidates ==> Outranks(sentTimes, canonical, y);
      LeastIsCanonical(canonical, candidates, start, ms);
    }

    lemma LeastIsCanonical(r: Identity, candidates: set<Identity>, start: Identity, ms: set<Message>)
      requires Dated(TimesOf(ms)) && AreCandidates(ArrowsOf(ms), start, candidates)
      requires r in candidates && forall y :: y in candidates ==> Outranks(sentTimes, r, y)
      ensures Canonical(ms, start, r)
    {
      forall y ensures Lookup(sentTimes, y) == EarliestOf(ms, y) {
        EarliestIsUnique(TimesOf(ms)(y), Lookup(sentTimes, y), EarliestOf(ms, y));
      }
      assert forall y :: Candidate(ArrowsOf(ms), start, y) ==> Outranks(sentTimes, r, y);
    }

    lemma RootsAreMembers(component: set<Identity>, start: Identity, es: Arrows)
      requires Holds(es) && component <= adjacency.Keys
      requires forall x :: x in component <==> Connected(es, start, x)
      ensures forall x :: x in component && predecessors[x] * component == {} <==> Root(es, start, x)
    {
      forall x | x in component ensures predecessors[x] * component == {} <==> Root(es, start, x) {
        if !Root(es, start, x) {
          var p :| (x, p) in es && Connected(es, start, p);
          assert p in predecessors[x] * component;
        } else {
          assert forall p :: p in predecessors[x] ==> p !in component;
        }
      }
    }

    lemma SameDates(times: Identity -> set<int>, others: Identity -> set<int>)
      requires Dated(times) && SameTimes(times, others)
      ensures Dated(others)
    {}
  }

  ghost function SetOf(ms: seq<Message>): set<Message> {
    set m | m in ms
  }

  ghost predicate IsComponent(ms: set<Message>, x: Identity, component: set<Identity>) {
    forall y :: y in component <==> Connected(ArrowsOf(ms), x, y)
  }

  lemma SetOfOneMore(ms: seq<Message>, i: nat)
    requires i < |ms|
    ensures SetOf(ms[..i + 1]) == SetOf(ms[..i]) + {ms[i]}
  {}

  method ReadStored(stored: seq<Message>) returns (graph: Graph)
    ensures fresh(graph) && graph.Describes(SetOf(stored))
  {
    graph := new Graph();
    for i := 0 to |stored|
      invariant fresh(graph) && graph.Describes(SetOf(stored[..i]))
    {
      graph.AddMessage(stored[i], SetOf(stored[..i]));
      SetOfOneMore(stored, i);
    }
    assert stored[..|stored|] == stored;
  }

  /** The connected component of the incoming message and its canonical identity, from
      the stored messages in any order. */
  method CapComponent(stored: seq<Message>, incoming: Message) returns (component: set<Identity>, canonical: Identity)
    ensures IsComponent(SetOf(stored) + {incoming}, incoming.id, component)
    ensures Canonical(SetOf(stored) + {incoming}, incoming.id, canonical)
  {
    ghost var ms := SetOf(stored) + {incoming};
    var graph := ReadStored(stored);
    graph.AddMessage(incoming, SetOf(stored));
    component := graph.Traverse(incoming.id, ArrowsOf(ms));
    var candidates := graph.Candidates(component, incoming.id, ArrowsOf(ms));
    canonical := graph.PickCanonical(candidates, incoming.id, ms);
  }

  method Elements(s: set<Identity>) returns (q: seq<Identity>)
    ensures forall x :: x in q <==> x in s
  {
    q := [];
    var rest := s;
    while rest != {}
      invariant forall x :: x in s <==> x in q || x in rest
    {
      var x :| x in rest;
      q, rest := q + [x], rest - {x};
    }
  }

  predicate Outranks(times: map<Identity, int>, a: Identity, b: Identity) {
    RankLeq(Lookup(times, a), a, Lookup(times, b), b)
  }

  lemma OutranksIsTotalOrder(times: map<Identity, int>, a: Identity, b: Identity)
    ensures Outranks(times, a, b) || Outranks(times, b, a)
    ensures forall c :: Outranks(times, a, b) && Outranks(times, b, c) ==> Outranks(times, a, c)
  {
    RankOrderIsTotal(Lookup(times, a), a, Lookup(times, b), b);
    forall c | Outranks(times, a, b) && Outranks(times, b, c) ensures Outranks(times, a, c) {
      RankOrderIsTransitive(Lookup(times, a), a, Lookup(times, b), b, Lookup(times, c), c);
    }
  }

  lemma {:induction false} LeastRank(xs: set<Identity>, times: map<Identity, int>) returns (r: Identity)
    requires xs != {}
    ensures r in xs && forall y :: y in xs ==> Outranks(times, r, y)
  {
    var x :| x in xs;
    r := x;
    OutranksIsTotalOrder(times, x, x);
    if xs != {x} {
      var s := LeastRank(xs - {x}, times);
      OutranksIsTotalOrder(times, x, s);
      r := if Outranks(times, x, s) then x else s;
      assert forall y :: y in xs ==> y == x || y in xs - {x};
    }
  }

  lemma EarliestIsUnique(times: set<int>, s: Option<int>, t: Option<int>)
    requires IsEarliest(times, s) && IsEarliest(times, t)
    ensures s == t
  {}

  ghost predicate SameTimes(times: Identity -> set<int>, others: Identity -> set<int>) {
    forall x :: times(x) == others(x)
  }

  ghost function TimesOf(ms: set<Message>): Identity -> set<int> {
    x => Times(ms, x)
  }

  ghost function Reported(times: Identity -> set<int>, x: Identity, more: set<int>): Identity -> set<int> {
    y => if y == x then times(x) + more else times(y)
  }

  /** The arrows known once the first `n` references of `m` are read. */
  ghost function ArrowsUpTo(ms: set<Message>, m: Message, n: nat): Arrows
    requires n <= |References(m)|
  {
    ArrowsOf(ms) + set x | x in References(m)[..n] && x.sender == m.id.sender :: (m.id, x)
  }

  /** The times known for each identity once the first `n` references of `m` are read. */
  ghost function TimesUpTo(ms: set<Message>, m: Message, n: nat): Identity -> set<int>
    requires n <= |References(m)|
  {
    var refs := References(m)[..n];
    x => Times(ms, x) + (if m.id == x then {m.sentAt} else {}) + (if x in refs then Hints(m, x) else {})
  }

  lemma NoReferenceYet(ms: set<Message>, m: Message)
    ensures ArrowsUpTo(ms, m, 0) == ArrowsOf(ms)
    ensures SameTimes(Reported(TimesOf(ms), m.id, {m.sentAt}), TimesUpTo(ms, m, 0))
  {}

  lemma OneMoreReference(ms: set<Message>, m: Message, n: nat)
    requires n < |References(m)|
    ensures var x := References(m)[n];
            ArrowsUpTo(ms, m, n + 1) ==
              (if x.sender == m.id.sender then ArrowsUpTo(ms, m, n) + {(m.id, x)} else ArrowsUpTo(ms, m, n)) &&
            SameTimes(Reported(TimesUpTo(ms, m, n), x, Hints(m, x)), TimesUpTo(ms, m, n + 1))
  {
    assert References(m)[..n + 1] == References(m)[..n] + [References(m)[n]];
  }

  lemma AllOfMessage(ms: set<Message>, m: Message)
    ensures ArrowsUpTo(ms, m, |References(m)|) == ArrowsOf(ms + {m})
    ensures SameTimes(TimesUpTo(ms, m, |References(m)|), TimesOf(ms + {m}))
  {
    assert References(m)[..|References(m)|] == References(m);
    forall x, t ensures t in Times(ms + {m}, x) <==> t in TimesUpTo(ms, m, |References(m)|)(x) {
      if t in Hints(m, x) { HintedIsReferenced(m, x, t); }
      if t in TimesFrom(m, x) { assert m in ms + {m}; }
      if t in Times(ms, x) {
        var n :| n in ms && t in TimesFrom(n, x);
        assert n in ms + {m};
      }
    }
  }
}
