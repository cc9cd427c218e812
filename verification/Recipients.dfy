/** Who is told about an official alert: the first revision goes to matching watch zones,
    every later one to those who were told before. */
module Recipients {
  import opened CapMessages
  import AlertRevisions
  import P = DeliveryProtocol

  type AlertKey = AlertRevisions.AlertKey

  datatype Who = Who(subscriber: nat, channel: P.Channel)

  datatype LifecycleAction = Warning | Revised | Cancellation | Expiry

  /** One revision as the queue sees it. */
  datatype Published = Published(key: AlertKey, revision: nat, kind: Kind, status: Status, current: bool)

  /** The columns of the unique index of the queue. */
  datatype Slot = Slot(who: Who, key: AlertKey, revision: nat, action: LifecycleAction)

  datatype Row = Row(slot: Slot, status: P.QueueStatus, zone: nat)

  /** A recipient with the watch zone the message is about. */
  datatype Candidate = Candidate(who: Who, zone: nat)

  /** Rows in the order of their creation. */
  type Queue = seq<Row>

  function ActionOf(kind: Kind, status: Status): LifecycleAction {
    if status == Expired then Expiry
    else if kind == Cancel || status == Cancelled then Cancellation
    else if kind == Update then Revised
    else Warning
  }

  predicate IsOpen(row: Row) {
    row.status == P.Pending || row.status == P.Failed
  }

  predicate Reached(row: Row) {
    IsOpen(row) || row.status == P.Sent || row.status == P.Acknowledged
  }

  predicate About(row: Row, key: AlertKey, who: Who) {
    row.slot.key == key && row.slot.who == who
  }

  // --------------------------------------------------------- the prior recipients

  /** Row `i` is told about `key`, and row `j` is not a later one of the same recipient. */
  predicate NotLater(t: Queue, i: nat, j: nat)
    requires i < |t| && j < |t|
  {
    t[j].slot.revision < t[i].slot.revision || (t[j].slot.revision == t[i].slot.revision && j <= i)
  }

  /** The row that `DISTINCT ON` keeps: of the highest revision, and the last created. */
  predicate Latest(t: Queue, key: AlertKey, i: nat)
    requires i < |t|
  {
    t[i].slot.key == key && Reached(t[i]) &&
    forall j: nat | j < |t| && About(t[j], key, t[i].slot.who) && Reached(t[j]) :: NotLater(t, i, j)
  }

  ghost predicate Recipient(t: Queue, key: AlertKey, who: Who) {
    exists i: nat :: i < |t| && About(t[i], key, who) && Reached(t[i])
  }

  function PriorRecipients(t: Queue, key: AlertKey, enabled: set<P.Channel>, n: nat): (cs: seq<Candidate>)
    requires n <= |t|
    ensures forall c | c in cs ::
              exists i: nat :: i < n && Latest(t, key, i) && c == Candidate(t[i].slot.who, t[i].zone) &&
                               c.who.channel in enabled
    ensures forall i: nat | i < n && Latest(t, key, i) && t[i].slot.who.channel in enabled ::
              Candidate(t[i].slot.who, t[i].zone) in cs
  {
    if n == 0 then []
    else
      var cs := PriorRecipients(t, key, enabled, n - 1);
      if Latest(t, key, n - 1) && t[n - 1].slot.who.channel in enabled
      then cs + [Candidate(t[n - 1].slot.who, t[n - 1].zone)] else cs
  }

  /** Every recipient has a latest row among the first `n`. */
  lemma {:induction false} LatestAmong(t: Queue, key: AlertKey, who: Who, n: nat, i: nat) returns (best: nat)
    requires i < n <= |t| && About(t[i], key, who) && Reached(t[i])
    ensures best < n && About(t[best], key, who) && Reached(t[best])
    ensures forall j: nat | j < n && About(t[j], key, who) && Reached(t[j]) :: NotLater(t, best, j)
  {
    if exists j: nat :: j < n - 1 && About(t[j], key, who) && Reached(t[j]) {
      var j: nat :| j < n - 1 && About(t[j], key, who) && Reached(t[j]);
      best := LatestAmong(t, key, who, n - 1, j);
      if About(t[n - 1], key, who) && Reached(t[n - 1]) && !NotLater(t, best, n - 1) { best := n - 1; }
    } else {
      best := n - 1;
    }
  }

  lemma RecipientHasLatest(t: Queue, key: AlertKey, who: Who) returns (best: nat)
    requires Recipient(t, key, who)
    ensures best < |t| && Latest(t, key, best) && t[best].slot.who == who
  {
    var i: nat :| i < |t| && About(t[i], key, who) && Reached(t[i]);
    best := LatestAmong(t, key, who, |t|, i);
  }

  // ------------------------------------------------------------------ statements

  predicate Taken(t: Queue, slot: Slot) {
    exists i :: 0 <= i < |t| && t[i].slot == slot
  }

  function SlotOf(a: Published, c: Candidate): Slot {
    Slot(c.who, a.key, a.revision, ActionOf(a.kind, a.status))
  }

  /** `INSERT ... ON CONFLICT DO NOTHING` of the first `n` candidates. */
  function Inserted(t: Queue, a: Published, cs: seq<Candidate>, n: nat): (u: Queue)
    requires n <= |cs|
    ensures |t| <= |u| && u[..|t|] == t
  {
    if n == 0 then t
    else
      var u := Inserted(t, a, cs, n - 1);
      var slot := SlotOf(a, cs[n - 1]);
      if Taken(u, slot) then u else u + [Row(slot, P.Pending, cs[n - 1].zone)]
  }

  predicate Stale(row: Row, a: Published) {
    row.slot.key == a.key && row.slot.revision < a.revision && IsOpen(row)
  }

  function Superseded(t: Queue, a: Published): Queue {
    seq(|t|, i requires 0 <= i < |t| => if Stale(t[i], a) then t[i].(status := P.Skipped) else t[i])
  }

  function Filtered(cs: seq<Candidate>, enabled: set<P.Channel>): (r: seq<Candidate>)
    ensures forall c :: c in r <==> c in cs && c.who.channel in enabled
  {
    if cs == [] then []
    else
      assert cs == [cs[0]] + cs[1..];
      (if cs[0].who.channel in enabled then [cs[0]] else []) + Filtered(cs[1..], enabled)
  }

  function Candidates(t: Queue, a: Published, enabled: set<P.Channel>, matched: seq<Candidate>): seq<Candidate> {
    if ActionOf(a.kind, a.status) == Warning then Filtered(matched, enabled)
    else PriorRecipients(t, a.key, enabled, |t|)
  }

  function Enqueued(t: Queue, a: Published, enabled: set<P.Channel>, matched: seq<Candidate>): Queue {
    var cs := Candidates(t, a, enabled, matched);
    if a.current then Superseded(Inserted(t, a, cs, |cs|), a) else t
  }

  /** The lifecycle rows of `ews_notification_log`; a call runs under the source lock. */
  class DeliveryQueue {
    var rows: Queue

    constructor ()
      ensures rows == []
    {
      rows := [];
    }

    method SlotTaken(slot: Slot) returns (taken: bool)
      ensures taken <==> Taken(rows, slot)
    {
      taken := false;
      for i := 0 to |rows|
        invariant taken <==> exists j :: 0 <= j < i && rows[j].slot == slot
      {
        if rows[i].slot == slot { taken := true; }
      }
    }

    method InsertAll(a: Published, cs: seq<Candidate>) returns (added: nat)
      modifies this
      ensures rows == Inserted(old(rows), a, cs, |cs|) && added == |rows| - |old(rows)|
    {
      ghost var t := rows;
      added := 0;
      for n := 0 to |cs|
        invariant rows == Inserted(t, a, cs, n) && added == |rows| - |t|
      {
        var slot := SlotOf(a, cs[n]);
        var taken := SlotTaken(slot);
        if !taken {
          rows := rows + [Row(slot, P.Pending, cs[n].zone)];
          added := added + 1;
        }
      }
    }

    /** `matched` are the pairs that the watch-zone query selects for the alert. */
    method Enqueue(a: Published, enabled: set<P.Channel>, matched: seq<Candidate>) returns (added: nat)
      modifies this
      ensures rows == Enqueued(old(rows), a, enabled, matched)
      ensures added == |rows| - |old(rows)|
    {
      if !a.current { return 0; }
      var cs := Candidates(rows, a, enabled, matched);
      added := InsertAll(a, cs);
      rows := Superseded(rows, a);
    }
  }
}
