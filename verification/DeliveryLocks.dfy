/** No reachable state of the delivery protocol is deadlocked: every transaction asks for
    its locks in one order, and those that do not climb in that order cannot clash. */
module DeliveryLocks {
  import opened Optional
  import opened DeliveryProtocol
  import opened DeliveryInvariants
  import opened DeliverySafety

  /** Worker `w` waits for a lock that clashes with one `v` holds. */
  ghost predicate WaitsFor(s: State, w: Worker, v: Worker) {
    w != v && w in s.workers && v in s.workers && Clashes(s.workers[w], s.workers[v])
  }

  predicate Clashes(w: WorkerState, v: WorkerState) {
    w.want.Some? && exists h | h in v.held :: Conflict(w.want.value, h)
  }

  // ------------------------------------------------------------- the lock order

  function Level(l: Lock): nat {
    match l
    case Advisory(_) => 0
    case SettingExclusive(_) => 1
    case SettingShare(_) => 2
    case AlertShare(_) => 3
    case AlertExclusive(_) => 3
    case QueueRow(_) => 4
  }

  /** Source locks first, in the order of the source names; then setting, alert, row. */
  predicate Below(a: Lock, b: Lock) {
    Level(a) < Level(b) || (a.Advisory? && b.Advisory? && a.source < b.source)
  }

  ghost predicate Together(s: State, w: WorkerState, v: WorkerState) {
    WorkerOk(s, w) && WantOk(s, w) && WorkerOk(s, v) && WantOk(s, v) && Compatible(w, v) && w.want.Some? && v.want.Some?
  }

  /** A queue row is asked for under its source lock, which is exclusive; ordinary
      deliveries hold nothing but their row, and a worker that holds one never waits. */
  lemma QueueRowsNeverClash(s: State, w: WorkerState, v: WorkerState)
    requires Together(s, w, v) && w.want.value.QueueRow?
    ensures !Clashes(w, v)
  {
    var l := w.want.value;
    assert MayRequest(s, w.(want := None), l);
    if l in v.held {
      var source := s.rows[l.row].source;
      if v.phase.Writing? { assert WriterLock(s, v, v.phase.due, l); }
      assert Conflict(Advisory(source), Advisory(source));
      assert false;
    }
  }

  lemma AlertLocksAreCovered(s: State, v: WorkerState, a: AlertId)
    requires WorkerOk(s, v) && TablesOk(s) && (AlertShare(a) in v.held || AlertExclusive(a) in v.held)
    ensures a in s.alerts && Advisory(s.alerts[a].source) in v.held
  {
    if v.phase.Writing? {
      forall l | l in v.held && (l == AlertShare(a) || l == AlertExclusive(a))
        ensures WriterLock(s, v, v.phase.due, l)
      {}
    } else {
      assert RowOk(s, s.rows[v.phase.claim.row]);
    }
  }

  lemma AlertLocksNeverClash(s: State, w: WorkerState, v: WorkerState)
    requires Together(s, w, v) && TablesOk(s) && (w.want.value.AlertShare? || w.want.value.AlertExclusive?)
    ensures !Clashes(w, v)
  {
    var l := w.want.value;
    assert MayRequest(s, w.(want := None), l);
    if AlertShare(l.alert) in v.held || AlertExclusive(l.alert) in v.held {
      AlertLocksAreCovered(s, v, l.alert);
      assert w.phase.Delivering? ==> RowOk(s, s.rows[w.phase.claim.row]);
      assert Conflict(Advisory(s.alerts[l.alert].source), Advisory(s.alerts[l.alert].source));
      assert false;
    }
  }

  /** A writer that already holds a setting has all its source locks, so it asks higher. */
  lemma SettingClashesClimb(s: State, w: WorkerState, v: WorkerState)
    requires Together(s, w, v) && Clashes(w, v) && (w.want.value.SettingShare? || w.want.value.SettingExclusive?)
    ensures Below(w.want.value, v.want.value)
  {
    var l, k := w.want.value, v.want.value;
    assert MayRequest(s, w.(want := None), l) && MayRequest(s, v.(want := None), k);
    var h :| h in v.held && Conflict(l, h);
    assert h == SettingShare(l.source) || h == SettingExclusive(l.source);
    if v.phase.Writing? { assert WriterLock(s, v, v.phase.due, h); }
  }

  /** Source locks are asked for in the order of the source names. */
  lemma SourceClashesClimb(s: State, w: WorkerState, v: WorkerState)
    requires Together(s, w, v) && Clashes(w, v) && w.want.value.Advisory?
    ensures Below(w.want.value, v.want.value)
  {
    var l, k := w.want.value, v.want.value;
    assert MayRequest(s, v.(want := None), k);
    assert l in v.held;
    if v.phase.Writing? && k.Advisory? {
      var due := v.phase.due;
      var n :| 0 <= n < |due| && k == Advisory(due[n]) && v.held == set j | 0 <= j < n :: Advisory(due[j]);
      assert Ascending(due);
    }
  }

  /** Whoever waits for a waiting worker wants a lower lock than that worker does. */
  lemma WaitingClimbs(s: State, w: Worker, v: Worker)
    requires Inv(s) && WaitsFor(s, w, v) && s.workers[v].want.Some?
    ensures Below(s.workers[w].want.value, s.workers[v].want.value)
  {
    var a, b := s.workers[w], s.workers[v];
    assert EachOk(s, w) && EachOk(s, v) && PairOk(a, b);
    match a.want.value
    case Advisory(_) => SourceClashesClimb(s, a, b);
    case SettingShare(_) => SettingClashesClimb(s, a, b);
    case SettingExclusive(_) => SettingClashesClimb(s, a, b);
    case QueueRow(_) => QueueRowsNeverClash(s, a, b);
    case _ => AlertLocksNeverClash(s, a, b);
  }

  // --------------------------------------------------------------- no deadlock

  lemma {:induction false} Highest(s: State, group: set<Worker>) returns (top: Worker)
    requires group != {} && forall w | w in group :: w in s.workers && s.workers[w].want.Some?
    ensures top in group
    ensures forall w | w in group :: !Below(s.workers[top].want.value, s.workers[w].want.value)
    decreases |group|
  {
    var u :| u in group;
    var rest := group - {u};
    assert forall w | w in group :: w == u || w in rest;
    if rest == {} {
      top := u;
    } else {
      var r := Highest(s, rest);
      top := if Below(s.workers[r].want.value, s.workers[u].want.value) then u else r;
    }
  }

  /** In no reachable state does a group of workers wait only for its own members. */
  lemma NoDeadlock(states: seq<State>, actions: seq<Action>, n: nat, group: set<Worker>)
    requires IsRun(states, actions) && n <= |actions| && group != {}
    ensures exists w :: w in group && forall v | v in group :: !WaitsFor(states[n], w, v)
  {
    var s := states[n];
    ReachableInv(states, actions, n);
    if w :| w in group && (w !in s.workers || s.workers[w].want.None?) {
      assert forall v | v in group :: !WaitsFor(s, w, v);
    } else {
      var top := Highest(s, group);
      forall v | v in group ensures !WaitsFor(s, top, v) {
        if WaitsFor(s, top, v) { WaitingClimbs(s, top, v); }
      }
    }
  }

  /** When everybody who has a transaction open waits, somebody's request can be granted. */
  lemma SomeRequestIsGranted(states: seq<State>, actions: seq<Action>, n: nat)
    requires IsRun(states, actions) && n <= |actions|
    requires exists w :: w in states[n].workers && states[n].workers[w].want.Some?
    requires forall w | w in states[n].workers :: states[n].workers[w].want.Some? || states[n].workers[w].held == {}
    ensures exists w, s' :: Next(states[n], Grant(w), s')
  {
    var s := states[n];
    var waiting := set w | w in s.workers && s.workers[w].want.Some?;
    var some :| some in s.workers && s.workers[some].want.Some?;
    assert some in waiting;
    NoDeadlock(states, actions, n, waiting);
    var w :| w in waiting && forall v | v in waiting :: !WaitsFor(s, w, v);
    var ws := s.workers[w];
    forall v, h | v in s.workers && v != w && h in s.workers[v].held ensures !Conflict(ws.want.value, h) {
      assert !WaitsFor(s, w, v);
    }
    var s' := With(s, w, ws.(held := ws.held + {ws.want.value}, want := None));
    assert Free(s, w, ws.want.value);
    assert Next(s, Grant(w), s');
  }
}
