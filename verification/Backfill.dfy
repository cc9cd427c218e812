/** The resumable backfill: a checkpointed job consumes a fixed list of records batch by
    batch, each batch in one transaction. */
module Backfill {
  import opened Optional

  const MAX_BATCH := 2000
  const REASON_LENGTH := 64

  datatype EventKey = EventKey(sourceRecordId: string, checksum: int)

  /** What mapping a raw record gives: a valid event, or the reason it is not one. */
  datatype Mapping = Mapped(key: EventKey, boundaryCode: string) | Unmappable(reason: string)

  /** `refused` marks a record whose rows the database does not accept; the error leaves
      the transaction unusable, so the rejection cannot be written either. */
  datatype Record = Record(payload: nat, sourceId: string, mapping: Mapping, refused: bool)

  datatype RejectionKey = RejectionKey(sourceId: Option<string>, reason: string)

  /** Both tables keep the first row of a key; the value is the row's raw payload. */
  datatype Tables = Tables(events: map<EventKey, nat>, rejections: map<RejectionKey, nat>)

  datatype JobStatus = Waiting | Running | Finished

  datatype Job = Job(status: JobStatus, offset: nat, processed: nat)

  const EMPTY := Tables(map[], map[])
  const NEW_JOB := Job(Waiting, 0, 0)

  function InsertAbsent<K, V>(m: map<K, V>, k: K, v: V): map<K, V> {
    if k in m then m else m[k := v]
  }

  function Reason(r: Record, boundaries: set<string>): Option<string> {
    match r.mapping
    case Unmappable(reason) => Some(reason)
    case Mapped(_, code) => if code in boundaries then None else Some("administrative_boundary_missing")
  }

  function Shortened(reason: string): string {
    if |reason| <= REASON_LENGTH then reason else reason[..REASON_LENGTH]
  }

  /** One record: an event, or a rejection under its source id and shortened reason. */
  function Consumed(t: Tables, r: Record, boundaries: set<string>): Tables {
    match Reason(r, boundaries)
    case None => t.(events := InsertAbsent(t.events, r.mapping.key, r.payload))
    case Some(reason) =>
      var id := if r.sourceId == "" then None else Some(r.sourceId);
      t.(rejections := InsertAbsent(t.rejections, RejectionKey(id, Shortened(reason)), r.payload))
  }

  function ConsumedAll(t: Tables, rs: seq<Record>, boundaries: set<string>): Tables {
    if rs == [] then t else Consumed(ConsumedAll(t, rs[..|rs| - 1], boundaries), rs[|rs| - 1], boundaries)
  }

  function BatchLength(batchSize: int): (n: nat)
    ensures 1 <= n <= 2000 && (1 <= batchSize <= 2000 ==> n == batchSize)
    ensures (batchSize < 1 ==> n == 1) && (batchSize > 2000 ==> n == 2000)
  {
    var capped := if batchSize < MAX_BATCH then batchSize else MAX_BATCH;
    if capped > 1 then capped else 1
  }

  function Batch(rs: seq<Record>, offset: nat, batchSize: int): (batch: seq<Record>)
    ensures |batch| <= MAX_BATCH && (offset < |rs| ==> batch != [])
    ensures offset + |batch| < |rs| ==> |batch| == BatchLength(batchSize)
    ensures offset <= |rs| ==> offset + |batch| <= |rs| && rs[..offset] + batch == rs[..offset + |batch|]
  {
    if offset >= |rs| then []
    else
      var until := offset + BatchLength(batchSize);
      if until <= |rs| then rs[offset..until] else rs[offset..]
  }

  /** How many records of a batch are not valid events. */
  function Rejected(batch: seq<Record>, boundaries: set<string>): nat {
    if batch == [] then 0
    else Rejected(batch[..|batch| - 1], boundaries) + if Reason(batch[|batch| - 1], boundaries).Some? then 1 else 0
  }

  /** The records of a batch that do not map to an event within a known boundary. */
  ghost function NoEvents(batch: seq<Record>, boundaries: set<string>): set<int> {
    set i | 0 <= i < |batch| && (batch[i].mapping.Unmappable? || batch[i].mapping.boundaryCode !in boundaries)
  }

  lemma {:induction false} RejectedIsSize(batch: seq<Record>, boundaries: set<string>)
    ensures Rejected(batch, boundaries) == |NoEvents(batch, boundaries)|
  {
    if batch != [] {
      var rest, last := batch[..|batch| - 1], batch[|batch| - 1];
      RejectedIsSize(rest, boundaries);
      assert NoEvents(batch, boundaries) ==
             NoEvents(rest, boundaries) + if Reason(last, boundaries).Some? then {|rest|} else {};
    }
  }

  predicate Refused(batch: seq<Record>) {
    exists r :: r in batch && r.refused
  }

  function Advanced(j: Job, start: nat, length: nat, total: nat): Job {
    Job(if start + length >= total then Finished else Running, start + length, j.processed + length)
  }

  // -------------------------------------------------------------- the consumption fold

  lemma {:induction false} ConsumedInTwoParts(t: Tables, a: seq<Record>, b: seq<Record>, boundaries: set<string>)
    ensures ConsumedAll(ConsumedAll(t, a, boundaries), b, boundaries) == ConsumedAll(t, a + b, boundaries)
  {
    if b == [] {
      assert a + b == a;
    } else {
      ConsumedInTwoParts(t, a, b[..|b| - 1], boundaries);
      assert (a + b)[..|a + b| - 1] == a + b[..|b| - 1];
    }
  }

  /** A batch takes the prefix that has been consumed one step further. */
  lemma NextPrefix(rs: seq<Record>, start: nat, batchSize: int, boundaries: set<string>)
    requires start <= |rs|
    ensures var batch := Batch(rs, start, batchSize);
            ConsumedAll(ConsumedAll(EMPTY, rs[..start], boundaries), batch, boundaries) ==
            ConsumedAll(EMPTY, rs[..start + |batch|], boundaries)
  {
    ConsumedInTwoParts(EMPTY, rs[..start], Batch(rs, start, batchSize), boundaries);
  }

  predicate Contains(big: Tables, small: Tables) {
    && (forall k | k in small.events :: k in big.events)
    && (forall k | k in small.rejections :: k in big.rejections)
  }

  lemma {:induction false} ConsumingKeepsKeys(t: Tables, rs: seq<Record>, boundaries: set<string>)
    ensures Contains(ConsumedAll(t, rs, boundaries), t)
  {
    if rs != [] { ConsumingKeepsKeys(t, rs[..|rs| - 1], boundaries); }
  }

  lemma KnownRecordChangesNothing(t: Tables, small: Tables, r: Record, boundaries: set<string>)
    requires Contains(t, Consumed(small, r, boundaries))
    ensures Consumed(t, r, boundaries) == t
  {}

  /** Records that were consumed before change nothing when they are consumed again. */
  lemma {:induction false} ConsumedAgain(t: Tables, small: Tables, rs: seq<Record>, boundaries: set<string>)
    requires Contains(t, ConsumedAll(small, rs, boundaries))
    ensures ConsumedAll(t, rs, boundaries) == t
  {
    if rs != [] {
      var rest, last := rs[..|rs| - 1], rs[|rs| - 1];
      var mid := ConsumedAll(small, rest, boundaries);
      ConsumingKeepsKeys(mid, [last], boundaries);
      assert ConsumedAll(mid, [last], boundaries) == Consumed(mid, last, boundaries) by {
        assert [last][..0] == [];
      }
      ConsumedAgain(t, small, rest, boundaries);
      KnownRecordChangesNothing(t, mid, last, boundaries);
    }
  }

  // ------------------------------------------------------- what the tables then hold

  predicate Accepts(r: Record, boundaries: set<string>, k: EventKey) {
    r.mapping.Mapped? && r.mapping.key == k && r.mapping.boundaryCode in boundaries
  }

  /** The record is no event, and this is the row that says so: its source id unless that
      is empty, and the first 64 characters of the reason. */
  predicate Rejects(r: Record, boundaries: set<string>, k: RejectionKey) {
    var reason := if r.mapping.Unmappable? then r.mapping.reason else "administrative_boundary_missing";
    && (r.mapping.Mapped? ==> r.mapping.boundaryCode !in boundaries)
    && k.reason <= reason && |k.reason| == (if |reason| < 64 then |reason| else 64)
    && (if r.sourceId == "" then k.sourceId == None else k.sourceId == Some(r.sourceId))
  }

  /** The first record that satisfies `p`. */
  function First(rs: seq<Record>, p: Record -> bool): (r: Option<nat>)
    ensures r.Some? ==> r.value < |rs| && p(rs[r.value]) && forall j | 0 <= j < r.value :: !p(rs[j])
    ensures r.None? ==> forall j | 0 <= j < |rs| :: !p(rs[j])
  {
    if rs == [] then None
    else
      var first := First(rs[..|rs| - 1], p);
      if first.Some? then first else if p(rs[|rs| - 1]) then Some(|rs| - 1) else None
  }

  function FirstPayload(rs: seq<Record>, p: Record -> bool): Option<nat> {
    match First(rs, p) case None => None case Some(i) => Some(rs[i].payload)
  }

  /** An event is stored exactly when some record maps to it within a known boundary, with
      the payload of the first such record. */
  lemma {:induction false} EventsAreFirstAccepted(rs: seq<Record>, boundaries: set<string>, k: EventKey)
    ensures Lookup(ConsumedAll(EMPTY, rs, boundaries).events, k) == FirstPayload(rs, r => Accepts(r, boundaries, k))
  {
    if rs != [] { EventsAreFirstAccepted(rs[..|rs| - 1], boundaries, k); }
  }

  /** A rejection is stored exactly when some record is no event for its reason, with the
      payload of the first such record. */
  lemma {:induction false} RejectionsAreFirstRejected(rs: seq<Record>, boundaries: set<string>, k: RejectionKey)
    ensures Lookup(ConsumedAll(EMPTY, rs, boundaries).rejections, k) == FirstPayload(rs, r => Rejects(r, boundaries, k))
  {
    if rs != [] {
      RejectionsAreFirstRejected(rs[..|rs| - 1], boundaries, k);
      RejectedUnderOneKey(rs[|rs| - 1], boundaries, k);
    }
  }

  lemma RejectedUnderOneKey(r: Record, boundaries: set<string>, k: RejectionKey)
    ensures Rejects(r, boundaries, k) <==>
            Reason(r, boundaries).Some? &&
            k == RejectionKey(if r.sourceId == "" then None else Some(r.sourceId),
                              Shortened(Reason(r, boundaries).value))
  {}

  /** Every record is accounted for, as an event or as a rejection. */
  lemma EveryRecordIsAccountedFor(rs: seq<Record>, boundaries: set<string>, i: nat)
    requires i < |rs|
    ensures var t, r := ConsumedAll(EMPTY, rs, boundaries), rs[i];
            (r.mapping.Mapped? && r.mapping.boundaryCode in boundaries ==> r.mapping.key in t.events) &&
            (r.mapping.Unmappable? || r.mapping.boundaryCode !in boundaries ==>
              exists k :: k in t.rejections && Rejects(r, boundaries, k))
  {
    var r := rs[i];
    if r.mapping.Mapped? && r.mapping.boundaryCode in boundaries {
      EventsAreFirstAccepted(rs, boundaries, r.mapping.key);
      assert Accepts(r, boundaries, r.mapping.key);
    } else {
      var id := if r.sourceId == "" then None else Some(r.sourceId);
      var k := RejectionKey(id, Shortened(Reason(r, boundaries).value));
      RejectedUnderOneKey(r, boundaries, k);
      RejectionsAreFirstRejected(rs, boundaries, k);
    }
  }

  // ---------------------------------------------------------------------- the runner

  datatype Report = Report(processed: nat, inserted: nat, rejected: nat, complete: bool, offset: nat)

  class BackfillJob {
    var tables: Tables
    var job: Job

    constructor ()
      ensures tables == EMPTY && job == NEW_JOB
    {
      tables, job := EMPTY, NEW_JOB;
    }

    /** One batch from a checkpoint read earlier.  A refused record, or a crash before the
        commit, leaves everything as it was. */
    method RunBatch(rs: seq<Record>, boundaries: set<string>, start: nat, batchSize: int, crash: bool)
      returns (report: Option<Report>)
      modifies this
      ensures report.None? <==> crash || Refused(Batch(rs, start, batchSize))
      ensures report.None? ==> tables == old(tables) && job == old(job)
      ensures report.Some? ==>
                var batch := Batch(rs, start, batchSize);
                tables == ConsumedAll(old(tables), batch, boundaries) &&
                job == Advanced(old(job), start, |batch|, |rs|) &&
                report.value.processed == |batch| && report.value.offset == job.offset &&
                report.value.complete == (job.status == Finished) &&
                report.value.rejected == Rejected(batch, boundaries) &&
                report.value.inserted == |tables.events| - |old(tables).events|
      ensures report.Some? ==>
                var n := |Batch(rs, start, batchSize)|;
                job.offset == start + n && job.processed == old(job.processed) + n &&
                (job.status == Finished <==> start + n >= |rs|) && job.status != Waiting &&
                report.value.rejected == |NoEvents(Batch(rs, start, batchSize), boundaries)|
    {
      var batch := Batch(rs, start, batchSize);
      var pending := tables;
      var inserted, rejected := 0, 0;
      for n := 0 to |batch|
        invariant pending == ConsumedAll(tables, batch[..n], boundaries)
        invariant inserted == |pending.events| - |tables.events|
        invariant rejected == Rejected(batch[..n], boundaries) && !Refused(batch[..n])
      {
        assert batch[..n + 1] == batch[..n] + [batch[n]];
        assert batch[..n + 1][..n] == batch[..n];
        if batch[n].refused { return None; }
        if Reason(batch[n], boundaries).None? {
          if batch[n].mapping.key !in pending.events { inserted := inserted + 1; }
        } else {
          rejected := rejected + 1;
        }
        pending := Consumed(pending, batch[n], boundaries);
      }
      assert batch[..|batch|] == batch;
      RejectedIsSize(batch, boundaries);
      if crash { return None; }
      tables := pending;
      job := Advanced(job, start, |batch|, |rs|);
      report := Some(Report(|batch|, inserted, rejected, job.status == Finished, job.offset));
    }

    /** The whole call, when no other call of the job overlaps it. */
    method RunJob(rs: seq<Record>, boundaries: set<string>, batchSize: int,
                  crash: bool) returns (report: Option<Report>)
      requires job.offset <= |rs| && tables == ConsumedAll(EMPTY, rs[..job.offset], boundaries)
      requires job.processed == job.offset
      modifies this
      ensures job.offset <= |rs| && tables == ConsumedAll(EMPTY, rs[..job.offset], boundaries)
      ensures job.processed == job.offset
      ensures if report.Some? && old(job.offset) < |rs|
              then job.offset > old(job.offset) else job.offset == old(job.offset)
    {
      var start := job.offset;
      NextPrefix(rs, start, batchSize, boundaries);
      report := RunBatch(rs, boundaries, start, batchSize, crash);
    }
  }

  // ---------------------------------------------------------------------- whole runs

  datatype State = State(tables: Tables, job: Job)

  datatype Attempt = Attempt(start: nat, batchSize: int, crash: bool)

  /** What `RunBatch` does, as a relation. */
  predicate Step(s: State, rs: seq<Record>, boundaries: set<string>, a: Attempt, s': State) {
    var batch := Batch(rs, a.start, a.batchSize);
    if a.crash || Refused(batch) then s' == s
    else s' == State(ConsumedAll(s.tables, batch, boundaries), Advanced(s.job, a.start, |batch|, |rs|))
  }

  ghost predicate IsRun(states: seq<State>, rs: seq<Record>, boundaries: set<string>, attempts: seq<Attempt>) {
    && |states| == |attempts| + 1 && states[0] == State(EMPTY, NEW_JOB)
    && forall n | 0 <= n < |attempts| :: Step(states[n], rs, boundaries, attempts[n], states[n + 1])
  }

  /** No two calls overlap: each starts from the checkpoint that is stored. */
  ghost predicate OneAtATime(states: seq<State>, attempts: seq<Attempt>) {
    |states| == |attempts| + 1 && forall n | 0 <= n < |attempts| :: attempts[n].start == states[n].job.offset
  }

  predicate InStep(s: State, rs: seq<Record>, boundaries: set<string>) {
    && s.job.offset <= |rs| && s.job.processed == s.job.offset
    && s.tables == ConsumedAll(EMPTY, rs[..s.job.offset], boundaries)
    && (s.job.status == Finished ==> s.job.offset == |rs|)
  }

  lemma StepKeepsInStep(s: State, rs: seq<Record>, boundaries: set<string>, a: Attempt, s': State)
    requires InStep(s, rs, boundaries) && a.start == s.job.offset && Step(s, rs, boundaries, a, s')
    ensures InStep(s', rs, boundaries) && s.job.offset <= s'.job.offset
    ensures s' != s && s.job.offset < |rs| ==> s.job.offset < s'.job.offset
  {
    NextPrefix(rs, s.job.offset, a.batchSize, boundaries);
  }

  /** Whatever the batch sizes and crashes, the tables hold exactly what one pass over
      the consumed records gives, and the count is the offset. */
  lemma {:induction false} TablesAreOnePass(states: seq<State>, rs: seq<Record>, boundaries: set<string>,
                                            attempts: seq<Attempt>, n: nat)
    requires IsRun(states, rs, boundaries, attempts) && OneAtATime(states, attempts) && n <= |attempts|
    ensures InStep(states[n], rs, boundaries)
  {
    if n > 0 {
      TablesAreOnePass(states, rs, boundaries, attempts, n - 1);
      assert attempts[n - 1].start == states[n - 1].job.offset;
      StepKeepsInStep(states[n - 1], rs, boundaries, attempts[n - 1], states[n]);
    } else {
      assert rs[..0] == [];
    }
  }

  /** A finished job has consumed every record once, as one pass would. */
  lemma FinishedIsOnePass(states: seq<State>, rs: seq<Record>, boundaries: set<string>, attempts: seq<Attempt>, n: nat)
    requires IsRun(states, rs, boundaries, attempts) && OneAtATime(states, attempts) && n <= |attempts|
    requires states[n].job.status == Finished
    ensures states[n].tables == ConsumedAll(EMPTY, rs, boundaries) && states[n].job.processed == |rs|
  {
    TablesAreOnePass(states, rs, boundaries, attempts, n);
    assert rs[..|rs|] == rs;
  }

  /** The attempt neither crashes nor meets a refused record. */
  predicate Goes(rs: seq<Record>, a: Attempt) {
    !a.crash && !Refused(Batch(rs, a.start, a.batchSize))
  }

  /** How many records the first `n` attempts ask for, the failed ones left out. */
  function Asked(rs: seq<Record>, attempts: seq<Attempt>, n: nat): nat
    requires n <= |attempts|
  {
    if n == 0 then 0
    else Asked(rs, attempts, n - 1) + if Goes(rs, attempts[n - 1]) then BatchLength(attempts[n - 1].batchSize) else 0
  }

  /** The checkpoint stands exactly where the attempts that went through have taken it, and
      the job is finished exactly when one did and together they asked for all records. */
  lemma {:induction false} FinishedIff(states: seq<State>, rs: seq<Record>, boundaries: set<string>,
                                       attempts: seq<Attempt>, n: nat)
    requires IsRun(states, rs, boundaries, attempts) && OneAtATime(states, attempts) && n <= |attempts|
    ensures states[n].job.offset == if Asked(rs, attempts, n) < |rs| then Asked(rs, attempts, n) else |rs|
    ensures states[n].job.status == Finished <==>
            Asked(rs, attempts, n) >= |rs| && exists k :: 0 <= k < n && Goes(rs, attempts[k])
  {
    if n > 0 {
      FinishedIff(states, rs, boundaries, attempts, n - 1);
      var s, a, s' := states[n - 1], attempts[n - 1], states[n];
      assert a.start == s.job.offset && Step(s, rs, boundaries, a, s');
      if !Goes(rs, a) {
        assert forall k | 0 <= k < n && Goes(rs, attempts[k]) :: k < n - 1;
      }
    }
  }

  lemma BatchSkipsNone(rs: seq<Record>, start: nat, batchSize: int, k: nat)
    requires start <= k < |rs| && rs[k].refused
    ensures var batch := Batch(rs, start, batchSize); start + |batch| > k ==> Refused(batch)
  {}

  /** A refused record is never passed, so its job never finishes. */
  lemma {:induction false} RefusedRecordBlocks(states: seq<State>, rs: seq<Record>, boundaries: set<string>,
                                               attempts: seq<Attempt>, n: nat, k: nat)
    requires IsRun(states, rs, boundaries, attempts) && OneAtATime(states, attempts) && n <= |attempts|
    requires k < |rs| && rs[k].refused
    ensures states[n].job.offset <= k && states[n].job.status != Finished
  {
    if n > 0 {
      RefusedRecordBlocks(states, rs, boundaries, attempts, n - 1, k);
      TablesAreOnePass(states, rs, boundaries, attempts, n - 1);
      var s, a, s' := states[n - 1], attempts[n - 1], states[n];
      assert a.start == s.job.offset && Step(s, rs, boundaries, a, s');
      BatchSkipsNone(rs, a.start, a.batchSize, k);
    }
  }

  // ------------------------------------------------------------- overlapping calls

  /** Calls may overlap: each starts from a checkpoint that was stored at some time. */
  ghost predicate Overlapping(states: seq<State>, attempts: seq<Attempt>) {
    |states| == |attempts| + 1 &&
    forall n | 0 <= n < |attempts| :: exists m :: 0 <= m <= n && attempts[n].start == states[m].job.offset
  }

  /** The tables have been filled up to some record, and no checkpoint is beyond it. */
  predicate FilledTo(s: State, rs: seq<Record>, boundaries: set<string>, high: nat) {
    high <= |rs| && s.job.offset <= high <= s.job.processed && s.tables == ConsumedAll(EMPTY, rs[..high], boundaries)
  }

  /** A stale batch repeats known records, and may then go beyond them. */
  lemma RepeatAndGoOn(t: Tables, a: seq<Record>, repeated: seq<Record>, added: seq<Record>, boundaries: set<string>)
    requires t == ConsumedAll(EMPTY, a + repeated, boundaries)
    ensures ConsumedAll(t, repeated + added, boundaries) == ConsumedAll(EMPTY, a + repeated + added, boundaries)
  {
    ConsumedInTwoParts(EMPTY, a, repeated, boundaries);
    ConsumedAgain(t, ConsumedAll(EMPTY, a, boundaries), repeated, boundaries);
    ConsumedInTwoParts(t, repeated, added, boundaries);
    ConsumedInTwoParts(EMPTY, a + repeated, added, boundaries);
  }

  lemma RepeatOnly(t: Tables, a: seq<Record>, repeated: seq<Record>, later: seq<Record>, boundaries: set<string>)
    requires t == ConsumedAll(EMPTY, a + repeated + later, boundaries)
    ensures ConsumedAll(t, repeated, boundaries) == t
  {
    ConsumedInTwoParts(EMPTY, a + repeated, later, boundaries);
    ConsumedInTwoParts(EMPTY, a, repeated, boundaries);
    ConsumingKeepsKeys(ConsumedAll(EMPTY, a + repeated, boundaries), later, boundaries);
    ConsumedAgain(t, ConsumedAll(EMPTY, a, boundaries), repeated, boundaries);
  }

  lemma Slices(rs: seq<Record>, a: nat, b: nat, c: nat)
    requires a <= b <= c <= |rs|
    ensures rs[..c] == rs[..a] + rs[a..b] + rs[b..c] && rs[..b] == rs[..a] + rs[a..b] && rs[a..c] == rs[a..b] + rs[b..c]
  {}

  lemma StaleBatch(t: Tables, rs: seq<Record>, boundaries: set<string>, start: nat, end: nat, high: nat)
    requires start <= end <= |rs| && start <= high <= |rs| && t == ConsumedAll(EMPTY, rs[..high], boundaries)
    ensures ConsumedAll(t, rs[start..end], boundaries) ==
            ConsumedAll(EMPTY, rs[..if end <= high then high else end], boundaries)
  {
    if end <= high {
      Slices(rs, start, end, high);
      RepeatOnly(t, rs[..start], rs[start..end], rs[end..high], boundaries);
    } else {
      Slices(rs, start, high, end);
      RepeatAndGoOn(t, rs[..start], rs[start..high], rs[high..end], boundaries);
    }
  }

  lemma OverlapStep(s: State, rs: seq<Record>, boundaries: set<string>, a: Attempt, s': State,
                    high: nat) returns (high': nat)
    requires FilledTo(s, rs, boundaries, high) && a.start <= high && Step(s, rs, boundaries, a, s')
    ensures FilledTo(s', rs, boundaries, high') && high <= high'
  {
    var batch := Batch(rs, a.start, a.batchSize);
    var end := a.start + |batch|;
    high' := high;
    if s' != s {
      assert batch == rs[a.start..end];
      StaleBatch(s.tables, rs, boundaries, a.start, end, high);
      high' := if end <= high then high else end;
    }
  }

  /** Overlapping calls still leave the tables of one pass over a prefix that reaches
      every checkpoint; only the processed count may run ahead. */
  lemma {:induction false} OverlapKeepsTables(states: seq<State>, rs: seq<Record>, boundaries: set<string>,
                                              attempts: seq<Attempt>, n: nat) returns (high: nat)
    requires IsRun(states, rs, boundaries, attempts) && Overlapping(states, attempts) && n <= |attempts|
    ensures FilledTo(states[n], rs, boundaries, high)
    ensures forall m | 0 <= m <= n :: states[m].job.offset <= high
  {
    if n == 0 {
      high := 0;
      assert rs[..0] == [];
    } else {
      var before := OverlapKeepsTables(states, rs, boundaries, attempts, n - 1);
      high := OverlapStep(states[n - 1], rs, boundaries, attempts[n - 1], states[n], before);
    }
  }

  // ------------------------------------------------- the count of processed records

  /** The attempt commits a batch with records in it. */
  predicate Commits(rs: seq<Record>, a: Attempt) {
    var batch := Batch(rs, a.start, a.batchSize);
    !a.crash && !Refused(batch) && batch != []
  }

  /** The highest checkpoint up to state `n`. */
  function Highest(states: seq<State>, n: nat): nat
    requires n < |states|
  {
    var offset := states[n].job.offset;
    if n == 0 then offset
    else
      var before := Highest(states, n - 1);
      if before < offset then offset else before
  }

  lemma {:induction false} HighestBounds(states: seq<State>, n: nat, m: nat)
    requires m <= n < |states|
    ensures states[m].job.offset <= Highest(states, n)
  {
    if m < n { HighestBounds(states, n - 1, m); }
  }

  lemma StartIsKnown(states: seq<State>, attempts: seq<Attempt>, n: nat)
    requires Overlapping(states, attempts) && n < |attempts|
    ensures attempts[n].start <= Highest(states, n)
  {
    var m :| 0 <= m <= n && attempts[n].start == states[m].job.offset;
    HighestBounds(states, n, m);
  }

  /** The lead of the count over the highest checkpoint never falls back, and grows exactly
      when a batch commits from a checkpoint that has been passed. */
  lemma LeadGrowsIff(states: seq<State>, rs: seq<Record>, boundaries: set<string>, attempts: seq<Attempt>, n: nat)
    requires IsRun(states, rs, boundaries, attempts) && Overlapping(states, attempts) && 0 < n <= |attempts|
    ensures states[n - 1].job.processed - Highest(states, n - 1) <= states[n].job.processed - Highest(states, n)
    ensures states[n - 1].job.processed - Highest(states, n - 1) < states[n].job.processed - Highest(states, n) <==>
            Commits(rs, attempts[n - 1]) && attempts[n - 1].start < Highest(states, n - 1)
  {
    StartIsKnown(states, attempts, n - 1);
    HighestBounds(states, n - 1, n - 1);
    assert Step(states[n - 1], rs, boundaries, attempts[n - 1], states[n]);
  }

  /** A batch that commits had started from the checkpoint then stored. */
  predicate FromCheckpoint(s: State, rs: seq<Record>, a: Attempt) {
    Commits(rs, a) ==> a.start == s.job.offset
  }

  ghost predicate AllFromCheckpoint(states: seq<State>, rs: seq<Record>, attempts: seq<Attempt>, n: nat)
    requires n <= |attempts| <= |states|
  {
    forall k | 0 <= k < n :: FromCheckpoint(states[k], rs, attempts[k])
  }

  lemma CountStep(states: seq<State>, rs: seq<Record>, boundaries: set<string>, attempts: seq<Attempt>, n: nat)
    requires IsRun(states, rs, boundaries, attempts) && Overlapping(states, attempts) && 0 < n <= |attempts|
    requires states[n - 1].job.processed == states[n - 1].job.offset == Highest(states, n - 1) <= |rs|
    ensures if FromCheckpoint(states[n - 1], rs, attempts[n - 1])
            then states[n].job.processed == states[n].job.offset == Highest(states, n)
            else states[n].job.processed > Highest(states, n)
  {
    StartIsKnown(states, attempts, n - 1);
    assert Step(states[n - 1], rs, boundaries, attempts[n - 1], states[n]);
  }

  /** Where the count stands when all commits came from the stored checkpoint, or not all. */
  predicate CountIs(s: State, highest: nat, level: bool) {
    if level then s.job.processed == s.job.offset == highest else s.job.processed > highest
  }

  lemma AllFromOneMore(states: seq<State>, rs: seq<Record>, attempts: seq<Attempt>, n: nat)
    requires 0 < n <= |attempts| <= |states|
    ensures AllFromCheckpoint(states, rs, attempts, n) <==>
            AllFromCheckpoint(states, rs, attempts, n - 1) && FromCheckpoint(states[n - 1], rs, attempts[n - 1])
  {}

  lemma {:induction false} HighestIsARecord(states: seq<State>, rs: seq<Record>, boundaries: set<string>,
                                            attempts: seq<Attempt>, n: nat)
    requires IsRun(states, rs, boundaries, attempts) && Overlapping(states, attempts) && n <= |attempts|
    ensures Highest(states, n) <= |rs|
  {
    if n > 0 {
      HighestIsARecord(states, rs, boundaries, attempts, n - 1);
      StartIsKnown(states, attempts, n - 1);
      assert Step(states[n - 1], rs, boundaries, attempts[n - 1], states[n]);
    }
  }

  lemma {:induction false} CountIsLevelIff(states: seq<State>, rs: seq<Record>, boundaries: set<string>,
                                           attempts: seq<Attempt>, n: nat)
    requires IsRun(states, rs, boundaries, attempts) && Overlapping(states, attempts) && n <= |attempts|
    ensures CountIs(states[n], Highest(states, n), AllFromCheckpoint(states, rs, attempts, n))
  {
    if n > 0 {
      CountIsLevelIff(states, rs, boundaries, attempts, n - 1);
      AllFromOneMore(states, rs, attempts, n);
      if AllFromCheckpoint(states, rs, attempts, n - 1) {
        HighestIsARecord(states, rs, boundaries, attempts, n - 1);
        CountStep(states, rs, boundaries, attempts, n);
      } else {
        LeadGrowsIff(states, rs, boundaries, attempts, n);
      }
    }
  }

  /** The count is the offset, and both the highest checkpoint, exactly as long as every
      batch that committed had started from the checkpoint then stored; from the first one
      that had not, the count is ahead of every checkpoint for good. */
  lemma CountIsOffsetIff(states: seq<State>, rs: seq<Record>, boundaries: set<string>, attempts: seq<Attempt>, n: nat)
    requires IsRun(states, rs, boundaries, attempts) && Overlapping(states, attempts) && n <= |attempts|
    ensures states[n].job.processed == states[n].job.offset <==> AllFromCheckpoint(states, rs, attempts, n)
    ensures AllFromCheckpoint(states, rs, attempts, n) ==> states[n].job.offset == Highest(states, n)
    ensures !AllFromCheckpoint(states, rs, attempts, n) ==>
              forall m: nat | m <= n :: states[n].job.processed > states[m].job.offset
  {
    CountIsLevelIff(states, rs, boundaries, attempts, n);
    forall m: nat | m <= n ensures states[m].job.offset <= Highest(states, n) { HighestBounds(states, n, m); }
  }

  const ONE_RECORD := [Record(0, "", Unmappable("invalid"), false)]
  const FROM_START := Attempt(0, 1, false)

  /** Two calls that read the same checkpoint count one record twice. */
  lemma OverlapCountsTwice() returns (states: seq<State>)
    ensures var attempts := [FROM_START, FROM_START];
            IsRun(states, ONE_RECORD, {}, attempts) && Overlapping(states, attempts) &&
            states[2].job.processed == 2 && states[2].job.offset == |ONE_RECORD| == 1
  {
    var batch := Batch(ONE_RECORD, 0, 1);
    var once, twice := ConsumedAll(EMPTY, batch, {}), ConsumedAll(ConsumedAll(EMPTY, batch, {}), batch, {});
    states := [State(EMPTY, NEW_JOB), State(once, Job(Finished, 1, 1)), State(twice, Job(Finished, 1, 2))];
    assert batch == ONE_RECORD;
    assert states[0].job.offset == 0;
  }
}
