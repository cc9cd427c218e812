/** Event merges: an append-only log of merges and splits, and the membership table that
    the code keeps beside it. */
module MergeLog {
  import opened Optional

  type EventId = nat

  datatype Kind = Merge | Split

  /** A row of the operation log; its id is its position. */
  datatype Operation = Operation(kind: Kind, canonical: EventId, member: EventId, reverses: Option<nat>,
                                 actor: string, reason: string)

  type Log = seq<Operation>

  datatype Membership = Membership(canonical: EventId, operation: nat, active: bool)

  type Table = map<EventId, Membership>

  datatype Error = SameEvent | MissingActorOrReason | AlreadyMerged | NoActiveMerge

  predicate IsSpace(c: char) {
    ('\t' <= c <= '\r') || ('\U{1C}' <= c <= ' ')
  }

  function Strip(s: string): (r: string)
    ensures r != "" ==> !IsSpace(r[0]) && !IsSpace(r[|r| - 1])
    ensures r == "" <==> forall c | c in s :: IsSpace(c)
    decreases |s|
  {
    if s == "" then ""
    else if IsSpace(s[0]) then
      assert s == [s[0]] + s[1..];
      Strip(s[1..])
    else if IsSpace(s[|s| - 1]) then
      assert s == s[..|s| - 1] + [s[|s| - 1]];
      assert s[0] in s;
      Strip(s[..|s| - 1])
    else
      assert s[0] in s;
      s
  }

  /** The code points that count as white space. */
  lemma SpacesAre(c: char)
    ensures IsSpace(c) <==> 9 <= c as int <= 13 || 28 <= c as int <= 32
  {}

  ghost predicate SpaceAround(s: string, i: nat, j: nat) {
    forall k | 0 <= k < |s| && (k < i || j <= k) :: IsSpace(s[k])
  }

  /** Stripping takes away white space at both ends and nothing else. */
  lemma {:induction false} StripKeepsMiddle(s: string) returns (i: nat, j: nat)
    ensures i <= j <= |s| && Strip(s) == s[i..j] && SpaceAround(s, i, j)
    decreases |s|
  {
    if s == "" {
      i, j := 0, 0;
    } else if IsSpace(s[0]) {
      var a, b := StripKeepsMiddle(s[1..]);
      i, j := a + 1, b + 1;
      forall k | 0 <= k < |s| && (k < i || j <= k) ensures IsSpace(s[k]) {
        if k > 0 { assert s[1..][k - 1] == s[k]; }
      }
    } else if IsSpace(s[|s| - 1]) {
      i, j := StripKeepsMiddle(s[..|s| - 1]);
      forall k | 0 <= k < |s| && (k < i || j <= k) ensures IsSpace(s[k]) {
        if k < |s| - 1 { assert s[..|s| - 1][k] == s[k]; }
      }
    } else {
      i, j := 0, |s|;
    }
  }

  // ------------------------------------------------------------------ the log alone

  /** The last of the first `n` operations on `m`. */
  function Latest(log: Log, m: EventId, n: nat): (r: Option<nat>)
    requires n <= |log|
    ensures r.Some? ==> r.value < n && log[r.value].member == m && forall i | r.value < i < n :: log[i].member != m
    ensures r.None? ==> forall i | 0 <= i < n :: log[i].member != m
  {
    if n == 0 then None else if log[n - 1].member == m then Some(n - 1) else Latest(log, m, n - 1)
  }

  predicate MergedAt(log: Log, m: EventId, n: nat)
    requires n <= |log|
  {
    Latest(log, m, n).Some? && log[Latest(log, m, n).value].kind == Merge
  }

  /** A merge finds its member unmerged; a split reverses the merge that is in force. */
  predicate EntryOk(log: Log, i: nat)
    requires i < |log|
  {
    var op := log[i];
    && op.canonical != op.member
    && match op.kind
       case Merge => op.reverses.None? && !MergedAt(log, op.member, i)
       case Split =>
         MergedAt(log, op.member, i) && op.reverses == Latest(log, op.member, i) &&
         op.canonical == log[op.reverses.value].canonical
  }

  ghost predicate LogOk(log: Log) {
    forall i: nat | i < |log| :: EntryOk(log, i)
  }

  lemma {:induction false} LatestOfPrefix(log: Log, more: Log, m: EventId, n: nat)
    requires n <= |log| && log <= more
    ensures Latest(more, m, n) == Latest(log, m, n)
  {}

  lemma EntriesStayOk(log: Log, op: Operation)
    requires LogOk(log) && EntryOk(log + [op], |log|)
    ensures LogOk(log + [op])
  {
    forall i: nat | i < |log| ensures EntryOk(log + [op], i) {
      assert EntryOk(log, i);
      LatestOfPrefix(log, log + [op], log[i].member, i);
    }
  }

  // ---------------------------------------------------------------- the table's meaning

  /** Writing one operation into the table. */
  function Applied(t: Table, op: Operation, id: nat): Table {
    match op.kind
    case Merge => t[op.member := Membership(op.canonical, id, true)]
    case Split =>
      if op.member in t && t[op.member].active && op.reverses == Some(t[op.member].operation)
      then t[op.member := t[op.member].(active := false)] else t
  }

  function Replayed(log: Log, n: nat): Table
    requires n <= |log|
  {
    if n == 0 then map[] else Applied(Replayed(log, n - 1), log[n - 1], n - 1)
  }

  predicate Reads(log: Log, t: Table, m: EventId, n: nat)
    requires n <= |log|
  {
    match Latest(log, m, n)
    case None => m !in t
    case Some(i) =>
      var merge := if log[i].kind == Merge then Some(i) else log[i].reverses;
      merge.Some? && m in t && t[m] == Membership(log[i].canonical, merge.value, log[i].kind == Merge)
  }

  /** The table shows, for every event, what the last operation on it says. */
  lemma {:induction false} TableShowsLatest(log: Log, n: nat, m: EventId)
    requires LogOk(log) && n <= |log|
    ensures Reads(log, Replayed(log, n), m, n)
  {
    if n > 0 {
      TableShowsLatest(log, n - 1, m);
      assert EntryOk(log, n - 1);
    }
  }

  lemma {:induction false} ReplayOfPrefix(log: Log, more: Log, n: nat)
    requires n <= |log| && log <= more
    ensures Replayed(more, n) == Replayed(log, n)
  {
    if n > 0 { ReplayOfPrefix(log, more, n - 1); }
  }

  // ------------------------------------------------------------------------ the store

  class MergeStore {
    var log: Log
    var memberships: Table

    /** The table is a replay of the log. */
    ghost predicate Valid()
      reads this
    {
      LogOk(log) && memberships == Replayed(log, |log|)
    }

    constructor ()
      ensures Valid() && log == []
    {
      log, memberships := [], map[];
    }

    /** Checks in the order of the source: events, texts, then the active membership. */
    method MergeEvents(canonical: EventId, member: EventId, actor: string,
                       reason: string) returns (error: Option<Error>)
      requires Valid()
      modifies this
      ensures Valid()
      ensures error == if canonical == member then Some(SameEvent)
                       else if Strip(actor) == "" || Strip(reason) == "" then Some(MissingActorOrReason)
                       else if MergedAt(old(log), member, |old(log)|) then Some(AlreadyMerged) else None
      ensures log == if error.Some? then old(log)
                     else old(log) + [Operation(Merge, canonical, member, None, Strip(actor), Strip(reason))]
    {
      if canonical == member { return Some(SameEvent); }
      if Strip(actor) == "" || Strip(reason) == "" { return Some(MissingActorOrReason); }
      TableShowsLatest(log, |log|, member);
      if member in memberships && memberships[member].active { return Some(AlreadyMerged); }
      var operation := Operation(Merge, canonical, member, None, Strip(actor), Strip(reason));
      Append(operation);
      memberships := memberships[member := Membership(canonical, |log| - 1, true)];
      error := None;
    }

    method SplitEventMerge(member: EventId, actor: string, reason: string) returns (error: Option<Error>)
      requires Valid()
      modifies this
      ensures Valid()
      ensures error == if Strip(actor) == "" || Strip(reason) == "" then Some(MissingActorOrReason)
                       else if !MergedAt(old(log), member, |old(log)|) then Some(NoActiveMerge) else None
      ensures error.Some? ==> log == old(log)
      ensures error.None? ==>
                var merge := Latest(old(log), member, |old(log)|).value;
                var canonical := old(log)[merge].canonical;
                log == old(log) + [Operation(Split, canonical, member, Some(merge), Strip(actor), Strip(reason))]
    {
      if Strip(actor) == "" || Strip(reason) == "" { return Some(MissingActorOrReason); }
      TableShowsLatest(log, |log|, member);
      if member !in memberships || !memberships[member].active { return Some(NoActiveMerge); }
      var active := memberships[member];
      assert EntryOk(log, active.operation);
      Append(Operation(Split, active.canonical, member, Some(active.operation), Strip(actor), Strip(reason)));
      memberships := memberships[member := active.(active := false)];
      error := None;
    }

    /** Inserts the operation row; the membership statement follows. */
    method Append(operation: Operation)
      requires Valid() && operation.canonical != operation.member
      requires match operation.kind
               case Merge => operation.reverses.None? && !MergedAt(log, operation.member, |log|)
               case Split =>
                 MergedAt(log, operation.member, |log|) && operation.reverses == Latest(log, operation.member, |log|) &&
                 operation.canonical == log[operation.reverses.value].canonical
      modifies this`log
      ensures log == old(log) + [operation] && LogOk(log)
      ensures Replayed(log, |log|) == Applied(memberships, operation, |log| - 1)
    {
      ghost var before := log;
      log := log + [operation];
      LatestOfPrefix(before, log, operation.member, |before|);
      EntriesStayOk(before, operation);
      ReplayOfPrefix(before, log, |before|);
    }
  }

  // --------------------------------------------------------------- what the log proves

  ghost predicate Neighbours(log: Log, i: nat, j: nat) {
    i < j < |log| && log[i].member == log[j].member && forall k | i < k < j :: log[k].member != log[j].member
  }

  lemma NeighbourIsLatest(log: Log, i: nat, j: nat)
    requires Neighbours(log, i, j)
    ensures Latest(log, log[j].member, j) == Some(i)
  {}

  /** The first operation on an event is a merge, and from then on they alternate: a split
      reverses the merge just before it. */
  lemma OperationsAlternate(log: Log, j: nat)
    requires LogOk(log) && j < |log|
    ensures (forall i | 0 <= i < j :: log[i].member != log[j].member) ==> log[j].kind == Merge
    ensures forall i: nat | Neighbours(log, i, j) ::
              log[i].kind != log[j].kind &&
              (log[j].kind == Split ==> log[j].reverses == Some(i) && log[j].canonical == log[i].canonical)
  {
    assert EntryOk(log, j);
    forall i: nat | Neighbours(log, i, j) ensures Latest(log, log[j].member, j) == Some(i) {
      NeighbourIsLatest(log, i, j);
    }
  }

  /** No merge is reversed twice. */
  lemma NoDoubleReversal(log: Log, i: nat, j: nat)
    requires LogOk(log) && i < j < |log| && log[i].kind == Split && log[j].kind == Split
    ensures log[i].reverses != log[j].reverses
  {
    assert EntryOk(log, i) && EntryOk(log, j);
  }

  ghost function ActiveMerges(t: Table): map<EventId, EventId> {
    map m | m in t && t[m].active :: t[m].canonical
  }

  predicate SameIn(a: map<EventId, EventId>, b: map<EventId, EventId>, e: EventId) {
    (e in a <==> e in b) && (e in a ==> a[e] == b[e])
  }

  /** A merge followed by its split restores the active merges: of the member itself, and
      of every event that no operation in between concerns. */
  lemma SplitRestores(log: Log, i: nat, j: nat, e: EventId)
    requires LogOk(log) && Neighbours(log, i, j) && log[i].kind == Merge
    requires e == log[i].member || forall k | i < k < j :: log[k].member != e
    ensures SameIn(ActiveMerges(Replayed(log, i)), ActiveMerges(Replayed(log, j + 1)), e)
  {
    OperationsAlternate(log, j);
    assert EntryOk(log, i);
    TableShowsLatest(log, i, e);
    TableShowsLatest(log, j + 1, e);
  }
}
