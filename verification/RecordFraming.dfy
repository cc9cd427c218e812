/** Reading a stream of records that arrives in chunks cut anywhere: what the caller sees
    depends only on the bytes, not on how they were cut. */
module RecordFraming {
  import opened Optional

  type Bytes = seq<bv8>

  const SEPARATOR: bv8 := 0x1e

  /** What the extractors read from one event; an empty text stands for nothing found. */
  datatype Event = Event(stage: string, message: string, partial: string, briefing: string, workflowDone: bool)

  /** Trimming of white space and JSON parsing, neither of which is modelled further. */
  datatype Codec = Codec(trim: Bytes -> Bytes, parse: Bytes -> Option<Event>, trimText: string -> string)

  datatype Callback = OnStatus(stage: string, message: string) | OnPartial(text: string)

  datatype Progress = Progress(callbacks: seq<Callback>, lastPartial: string, finalContent: string,
                               sawWorkflowDone: bool, sawAnyEvent: bool)

  const START := Progress([], "", "", false, false)

  // ---------------------------------------------------------------- one record

  /** What every parsed event does, wherever it stands in the stream. */
  function Noted(p: Progress, e: Event): Progress {
    var statuses := if e.stage != "" && e.message != "" then [OnStatus(e.stage, e.message)] else [];
    var partials := if e.partial != "" && e.partial != p.lastPartial then [OnPartial(e.partial)] else [];
    p.(callbacks := p.callbacks + statuses + partials,
       finalContent := if e.briefing != "" then e.briefing else p.finalContent,
       sawAnyEvent := true)
  }

  /** A record ended by a separator counts as an event even when it does not parse. */
  function Handled(codec: Codec, p: Progress, record: Bytes): Progress {
    match codec.parse(record)
    case None => p.(sawAnyEvent := true)
    case Some(e) =>
      Noted(p, e).(lastPartial := if e.partial != "" then e.partial else p.lastPartial,
                   sawWorkflowDone := p.sawWorkflowDone || e.workflowDone)
  }

  /** The unended rest at the end of the file counts only when it parses, and never as
      the end of the workflow. */
  function TailHandled(codec: Codec, p: Progress, rest: Bytes): Progress {
    var record := codec.trim(rest);
    if record == [] then p
    else match codec.parse(record)
      case None => p
      case Some(e) => Noted(p, e)
  }

  // ------------------------------------------------------ splitting the whole stream

  /** Where the first separator stands, or the length when there is none. */
  function Index(bs: Bytes): (i: nat)
    ensures i <= |bs| && SEPARATOR !in bs[..i]
    ensures i < |bs| ==> bs[i] == SEPARATOR
  {
    if bs == [] || bs[0] == SEPARATOR then 0
    else
      var i := Index(bs[1..]);
      assert bs[..i + 1] == [bs[0]] + bs[1..][..i];
      i + 1
  }

  datatype Pieces = Pieces(records: seq<Bytes>, rest: Bytes)

  function Split(bs: Bytes): Pieces
    decreases |bs|
  {
    var i := Index(bs);
    if i == |bs| then Pieces([], bs)
    else
      var tail := Split(bs[i + 1..]);
      Pieces([bs[..i]] + tail.records, tail.rest)
  }

  function Join(pieces: Pieces): Bytes
    decreases |pieces.records|
  {
    if pieces.records == [] then pieces.rest
    else pieces.records[0] + [SEPARATOR] + Join(Pieces(pieces.records[1..], pieces.rest))
  }

  predicate Plain(pieces: Pieces) {
    SEPARATOR !in pieces.rest && forall r | r in pieces.records :: SEPARATOR !in r
  }

  lemma JoinStep(first: Bytes, tail: Pieces)
    ensures Join(Pieces([first] + tail.records, tail.rest)) == first + [SEPARATOR] + Join(tail)
  {}

  /** Splitting loses nothing and leaves no separator inside a record. */
  lemma {:induction false} SplitIsPlain(bs: Bytes)
    ensures Plain(Split(bs)) && Join(Split(bs)) == bs
    decreases |bs|
  {
    var i := Index(bs);
    if i == |bs| {
      assert bs[..i] == bs;
    } else {
      var tail := Split(bs[i + 1..]);
      SplitIsPlain(bs[i + 1..]);
      JoinStep(bs[..i], tail);
      assert bs == bs[..i] + [SEPARATOR] + bs[i + 1..];
    }
  }

  /** Splitting is the only way to cut the bytes into records without separators. */
  lemma {:induction false} SplitUndoesJoin(pieces: Pieces)
    requires Plain(pieces)
    ensures Split(Join(pieces)) == pieces
    decreases |pieces.records|
  {
    var bs := Join(pieces);
    if pieces.records != [] {
      var first, others := pieces.records[0], Pieces(pieces.records[1..], pieces.rest);
      SplitUndoesJoin(others);
      assert pieces.records == [first] + others.records;
      SplitOneMore(first, Join(others));
    } else {
      assert forall k | 0 <= k < |bs| :: bs[k] in bs;
    }
  }

  lemma SplitOneMore(first: Bytes, more: Bytes)
    requires SEPARATOR !in first
    ensures Split(first + [SEPARATOR] + more) == Pieces([first] + Split(more).records, Split(more).rest)
  {
    var bs := first + [SEPARATOR] + more;
    FirstSeparator(first, more);
    assert bs[..|first|] == first && bs[|first| + 1..] == more;
  }

  lemma FirstSeparator(first: Bytes, more: Bytes)
    requires SEPARATOR !in first
    ensures Index(first + [SEPARATOR] + more) == |first|
  {
    var bs := first + [SEPARATOR] + more;
    assert bs[|first|] == SEPARATOR;
  }

  /** The records that count: trimmed, and not empty then. */
  function Kept(codec: Codec, records: seq<Bytes>): seq<Bytes> {
    if records == [] then []
    else
      var record := codec.trim(records[0]);
      (if record == [] then [] else [record]) + Kept(codec, records[1..])
  }

  function AllHandled(codec: Codec, p: Progress, records: seq<Bytes>): Progress
    decreases |records|
  {
    if records == [] then p else AllHandled(codec, Handled(codec, p, records[0]), records[1..])
  }

  /** What the complete records of a whole stream amount to. */
  function Complete(codec: Codec, bs: Bytes): Progress {
    AllHandled(codec, START, Kept(codec, Split(bs).records))
  }

  // ------------------------------------------------------------- reading in chunks

  function Concat(chunks: seq<Bytes>): Bytes {
    if chunks == [] then [] else Concat(chunks[..|chunks| - 1]) + chunks[|chunks| - 1]
  }

  datatype Reader = Reader(progress: Progress, buffer: Bytes)

  function TakeRecord(codec: Codec, r: Reader, i: nat): Reader
    requires i < |r.buffer|
  {
    var record := codec.trim(r.buffer[..i]);
    Reader(if record == [] then r.progress else Handled(codec, r.progress, record), r.buffer[i + 1..])
  }

  /** All complete records of the buffer are taken from it. */
  function Drained(codec: Codec, r: Reader): Reader
    decreases |r.buffer|
  {
    var i := Index(r.buffer);
    if i == |r.buffer| then r else Drained(codec, TakeRecord(codec, r, i))
  }

  function More(r: Reader, bs: Bytes): Reader {
    r.(buffer := r.buffer + bs)
  }

  /** Draining early and then reading on is the same as reading everything first. */
  lemma {:induction false} DrainEarly(codec: Codec, r: Reader, more: Bytes)
    ensures Drained(codec, More(Drained(codec, r), more)) == Drained(codec, More(r, more))
    decreases |r.buffer|
  {
    var i := Index(r.buffer);
    if i < |r.buffer| {
      var all := r.buffer + more;
      assert all == r.buffer[..i] + [SEPARATOR] + (r.buffer[i + 1..] + more);
      FirstSeparator(r.buffer[..i], r.buffer[i + 1..] + more);
      assert all[..i] == r.buffer[..i] && all[i + 1..] == r.buffer[i + 1..] + more;
      DrainEarly(codec, TakeRecord(codec, r, i), more);
    }
  }

  lemma KeptStep(codec: Codec, p: Progress, first: Bytes, records: seq<Bytes>)
    ensures var record := codec.trim(first);
            AllHandled(codec, p, Kept(codec, [first] + records)) ==
            AllHandled(codec, if record == [] then p else Handled(codec, p, record), Kept(codec, records))
  {
    var record := codec.trim(first);
    var kept := Kept(codec, records);
    assert ([first] + records)[1..] == records;
    assert [] + kept == kept && ([record] + kept)[1..] == kept;
  }

  lemma {:induction false} DrainingIsSplitting(codec: Codec, p: Progress, bs: Bytes)
    ensures Drained(codec, Reader(p, bs)) ==
            Reader(AllHandled(codec, p, Kept(codec, Split(bs).records)), Split(bs).rest)
    decreases |bs|
  {
    var i := Index(bs);
    if i < |bs| {
      var next := TakeRecord(codec, Reader(p, bs), i);
      DrainingIsSplitting(codec, next.progress, next.buffer);
      KeptStep(codec, p, bs[..i], Split(bs[i + 1..]).records);
    }
  }

  datatype End = EndOfFile | ReadError

  datatype Failure = ReadFailed | Cancelled | NoEvents | NoBriefing

  datatype Outcome = Outcome(content: string, failure: Option<Failure>, callbacks: seq<Callback>)

  /** The verdict after the last read. */
  function Verdict(codec: Codec, p: Progress, cancelled: bool): Outcome {
    if cancelled then Outcome(p.finalContent, Some(Cancelled), p.callbacks)
    else if !p.sawAnyEvent then Outcome(p.finalContent, Some(NoEvents), p.callbacks)
    else if codec.trimText(p.finalContent) == "" && !p.sawWorkflowDone then
      Outcome(p.finalContent, Some(NoBriefing), p.callbacks)
    else Outcome(codec.trimText(p.finalContent), None, p.callbacks)
  }

  /** The outcome of a stream, read off its bytes alone. */
  function OutcomeOf(codec: Codec, bs: Bytes, end: End, cancelled: bool): Outcome {
    var p := Complete(codec, bs);
    if end == ReadError then Outcome(p.finalContent, Some(ReadFailed), p.callbacks)
    else Verdict(codec, TailHandled(codec, p, Split(bs).rest), cancelled)
  }

  /** The inner loop: take every complete record from the buffer. */
  method Drain(codec: Codec, r: Reader) returns (drained: Reader)
    ensures drained == Drained(codec, r)
  {
    drained := r;
    var i := Index(drained.buffer);
    while i < |drained.buffer|
      invariant i == Index(drained.buffer)
      invariant Drained(codec, drained) == Drained(codec, r)
      decreases |drained.buffer|
    {
      drained := TakeRecord(codec, drained, i);
      i := Index(drained.buffer);
    }
  }

  /** The chunk loop: the outcome is that of the concatenated bytes. */
  method StreamBriefing(codec: Codec, chunks: seq<Bytes>, end: End, cancelled: bool) returns (outcome: Outcome)
    ensures outcome == OutcomeOf(codec, Concat(chunks), end, cancelled)
  {
    var reader := Reader(START, []);
    for n := 0 to |chunks|
      invariant reader == Drained(codec, Reader(START, Concat(chunks[..n])))
    {
      assert chunks[..n + 1][..n] == chunks[..n];
      DrainEarly(codec, Reader(START, Concat(chunks[..n])), chunks[n]);
      reader := Drain(codec, More(reader, chunks[n]));
    }
    assert chunks[..|chunks|] == chunks;
    DrainingIsSplitting(codec, START, Concat(chunks));
    if end == ReadError {
      return Outcome(reader.progress.finalContent, Some(ReadFailed), reader.progress.callbacks);
    }
    return Verdict(codec, TailHandled(codec, reader.progress, reader.buffer), cancelled);
  }

  // --------------------------------------------------------- what callers rely on

  /** However a sequence of separated records and an unended rest is cut into chunks, the
      outcome is that of its nonempty trimmed records in order, and then of the rest. */
  lemma OutcomeOfRecords(codec: Codec, pieces: Pieces, chunks: seq<Bytes>, cancelled: bool)
    requires Plain(pieces) && Concat(chunks) == Join(pieces)
    ensures OutcomeOf(codec, Concat(chunks), EndOfFile, cancelled) ==
            var p := AllHandled(codec, START, Kept(codec, pieces.records));
            Verdict(codec, TailHandled(codec, p, pieces.rest), cancelled)
    ensures OutcomeOf(codec, Concat(chunks), ReadError, cancelled).callbacks ==
            AllHandled(codec, START, Kept(codec, pieces.records)).callbacks
  {
    SplitUndoesJoin(pieces);
  }

  function Partials(callbacks: seq<Callback>): seq<string> {
    if callbacks == [] then []
    else
      var last := callbacks[|callbacks| - 1];
      Partials(callbacks[..|callbacks| - 1]) + if last.OnPartial? then [last.text] else []
  }

  /** The partial texts reported so far never repeat the one before, and the last one
      reported is the one remembered. */
  ghost predicate Fresh(texts: seq<string>, last: string) {
    && (forall i | 0 <= i < |texts| :: texts[i] != "" && (i > 0 ==> texts[i] != texts[i - 1]))
    && last == if texts == [] then "" else texts[|texts| - 1]
  }

  lemma PartialsOfNoted(p: Progress, e: Event)
    ensures Partials(Noted(p, e).callbacks) ==
            Partials(p.callbacks) + if e.partial != "" && e.partial != p.lastPartial then [e.partial] else []
  {
    var statuses := if e.stage != "" && e.message != "" then [OnStatus(e.stage, e.message)] else [];
    var partials := if e.partial != "" && e.partial != p.lastPartial then [OnPartial(e.partial)] else [];
    var withStatus := p.callbacks + statuses;
    assert Partials(withStatus) == Partials(p.callbacks) by {
      assert statuses != [] ==> withStatus[..|withStatus| - 1] == p.callbacks;
      assert statuses == [] ==> withStatus == p.callbacks;
    }
    assert Noted(p, e).callbacks == withStatus + partials;
    assert partials != [] ==> (withStatus + partials)[..|withStatus|] == withStatus;
    assert partials == [] ==> withStatus + partials == withStatus;
  }

  lemma FreshAppend(texts: seq<string>, last: string, text: string)
    requires Fresh(texts, last) && text != "" && text != last
    ensures Fresh(texts + [text], text)
  {}

  lemma NotedKeepsFresh(p: Progress, e: Event)
    requires Fresh(Partials(p.callbacks), p.lastPartial)
    ensures Fresh(Partials(Noted(p, e).callbacks), if e.partial != "" then e.partial else p.lastPartial)
  {
    PartialsOfNoted(p, e);
    var texts := Partials(p.callbacks);
    if e.partial != "" && e.partial != p.lastPartial {
      FreshAppend(texts, p.lastPartial, e.partial);
    } else {
      assert texts + [] == texts;
    }
  }

  lemma {:induction false} HandlingKeepsFresh(codec: Codec, p: Progress, records: seq<Bytes>)
    requires Fresh(Partials(p.callbacks), p.lastPartial)
    ensures var q := AllHandled(codec, p, records); Fresh(Partials(q.callbacks), q.lastPartial)
    decreases |records|
  {
    if records != [] {
      var next := Handled(codec, p, records[0]);
      var parsed := codec.parse(records[0]);
      assert Fresh(Partials(next.callbacks), next.lastPartial) by {
        if parsed.Some? { NotedKeepsFresh(p, parsed.value); }
      }
      HandlingKeepsFresh(codec, next, records[1..]);
    }
  }

  /** No partial text is reported twice in a row, not even by the unended rest. */
  lemma PartialsNeverRepeat(codec: Codec, bs: Bytes, end: End, cancelled: bool)
    ensures var texts := Partials(OutcomeOf(codec, bs, end, cancelled).callbacks);
            forall i | 0 < i < |texts| :: texts[i] != texts[i - 1]
  {
    var p := Complete(codec, bs);
    HandlingKeepsFresh(codec, START, Kept(codec, Split(bs).records));
    var parsed := codec.parse(codec.trim(Split(bs).rest));
    if parsed.Some? { NotedKeepsFresh(p, parsed.value); }
  }

  /** The text of the last event that has a final briefing. */
  function LastBriefing(codec: Codec, records: seq<Bytes>): string {
    if records == [] then ""
    else match codec.parse(records[|records| - 1])
      case Some(e) => if e.briefing != "" then e.briefing else LastBriefing(codec, records[..|records| - 1])
      case None => LastBriefing(codec, records[..|records| - 1])
  }

  lemma {:induction false} HandledOneMore(codec: Codec, p: Progress, records: seq<Bytes>, record: Bytes)
    ensures AllHandled(codec, p, records + [record]) == Handled(codec, AllHandled(codec, p, records), record)
    decreases |records|
  {
    if records == [] {
      assert AllHandled(codec, Handled(codec, p, record), []) == Handled(codec, p, record);
      assert (records + [record])[1..] == [];
    } else {
      HandledOneMore(codec, Handled(codec, p, records[0]), records[1..], record);
      assert (records + [record])[1..] == records[1..] + [record];
    }
  }

  lemma {:induction false} FinalIsLastBriefing(codec: Codec, records: seq<Bytes>)
    ensures AllHandled(codec, START, records).finalContent == LastBriefing(codec, records)
  {
    if records != [] {
      var rest := records[..|records| - 1];
      FinalIsLastBriefing(codec, rest);
      HandledOneMore(codec, START, rest, records[|records| - 1]);
      assert records == rest + [records[|records| - 1]];
    }
  }

  function Statuses(callbacks: seq<Callback>): seq<(string, string)> {
    if callbacks == [] then []
    else
      var last := callbacks[|callbacks| - 1];
      Statuses(callbacks[..|callbacks| - 1]) + if last.OnStatus? then [(last.stage, last.message)] else []
  }

  /** The status messages of the events in a list of records. */
  function StatusesOf(codec: Codec, records: seq<Bytes>): seq<(string, string)> {
    if records == [] then []
    else
      StatusesOf(codec, records[..|records| - 1]) +
      match codec.parse(records[|records| - 1])
      case Some(e) => if e.stage != "" && e.message != "" then [(e.stage, e.message)] else []
      case None => []
  }

  lemma StatusesGrow(callbacks: seq<Callback>, added: seq<Callback>)
    requires |added| <= 1
    ensures Statuses(callbacks + added) ==
            Statuses(callbacks) + if added != [] && added[0].OnStatus? then [(added[0].stage, added[0].message)] else []
  {
    assert added != [] ==> (callbacks + added)[..|callbacks|] == callbacks;
    assert added == [] ==> callbacks + added == callbacks;
  }

  lemma StatusesOfNoted(p: Progress, e: Event)
    ensures Statuses(Noted(p, e).callbacks) ==
            Statuses(p.callbacks) + if e.stage != "" && e.message != "" then [(e.stage, e.message)] else []
  {
    var statuses := if e.stage != "" && e.message != "" then [OnStatus(e.stage, e.message)] else [];
    var partials := if e.partial != "" && e.partial != p.lastPartial then [OnPartial(e.partial)] else [];
    StatusesGrow(p.callbacks, statuses);
    StatusesGrow(p.callbacks + statuses, partials);
    assert Noted(p, e).callbacks == p.callbacks + statuses + partials;
  }

  /** Every status message of a complete record is reported, in order and no other; the
      flags say whether there was a record, and whether one ended the workflow. */
  lemma {:induction false} StatusesInOrder(codec: Codec, records: seq<Bytes>)
    ensures var p := AllHandled(codec, START, records);
            Statuses(p.callbacks) == StatusesOf(codec, records) &&
            (p.sawAnyEvent <==> records != []) &&
            (p.sawWorkflowDone <==>
              exists r :: r in records && codec.parse(r).Some? && codec.parse(r).value.workflowDone)
  {
    if records != [] {
      var rest, last := records[..|records| - 1], records[|records| - 1];
      StatusesInOrder(codec, rest);
      HandledOneMore(codec, START, rest, last);
      assert records == rest + [last];
      var parsed := codec.parse(last);
      if parsed.Some? { StatusesOfNoted(AllHandled(codec, START, rest), parsed.value); }
    }
  }

  function AtEnd(codec: Codec, bs: Bytes): Progress {
    TailHandled(codec, Complete(codec, bs), Split(bs).rest)
  }

  lemma SplitEnded(bs: Bytes)
    ensures Split(bs + [SEPARATOR]) == Pieces(Split(bs).records + [Split(bs).rest], [])
  {
    var pieces := Pieces(Split(bs).records + [Split(bs).rest], []);
    SplitIsPlain(bs);
    JoinEnded(Split(bs));
    SplitUndoesJoin(pieces);
  }

  lemma {:induction false} JoinEnded(pieces: Pieces)
    ensures Join(Pieces(pieces.records + [pieces.rest], [])) == Join(pieces) + [SEPARATOR]
    decreases |pieces.records|
  {
    if pieces.records == [] {
      JoinStep(pieces.rest, Pieces([], []));
    } else {
      var tail := Pieces(pieces.records[1..], pieces.rest);
      JoinEnded(tail);
      JoinStep(pieces.records[0], Pieces(tail.records + [tail.rest], []));
      assert [pieces.records[0]] + (tail.records + [tail.rest]) == pieces.records + [pieces.rest];
    }
  }

  lemma {:induction false} KeptEnded(codec: Codec, records: seq<Bytes>, last: Bytes)
    ensures Kept(codec, records + [last]) ==
            Kept(codec, records) + if codec.trim(last) == [] then [] else [codec.trim(last)]
  {
    if records != [] {
      KeptEnded(codec, records[1..], last);
      assert (records + [last])[1..] == records[1..] + [last];
    }
  }

  /** Ending the last record with a separator changes neither callbacks nor text.  It
      changes a flag exactly when that record is the only event and does not parse, or is
      the only one that ends the workflow. */
  lemma LastSeparatorMatters(codec: Codec, bs: Bytes)
    requires codec.trim([]) == []
    ensures var ended, unended := AtEnd(codec, bs + [SEPARATOR]), AtEnd(codec, bs);
            var p, record := Complete(codec, bs), codec.trim(Split(bs).rest);
            ended.callbacks == unended.callbacks && ended.finalContent == unended.finalContent &&
            (ended.sawAnyEvent == unended.sawAnyEvent <==>
              p.sawAnyEvent || record == [] || codec.parse(record).Some?) &&
            (ended.sawWorkflowDone == unended.sawWorkflowDone <==>
              p.sawWorkflowDone || record == [] || codec.parse(record).None? || !codec.parse(record).value.workflowDone)
  {
    SplitEnded(bs);
    var records, last := Split(bs).records, Split(bs).rest;
    KeptEnded(codec, records, last);
    if codec.trim(last) == [] {
      assert Kept(codec, records) + [] == Kept(codec, records);
    } else {
      HandledOneMore(codec, START, Kept(codec, records), codec.trim(last));
    }
  }

  /** The record without its separator makes no difference to the outcome: the call was
      cancelled, there is no such record, it does not parse but is not the only one, or it
      parses and a text or another record makes up for its mark of the workflow's end. */
  ghost predicate SeparatorIsIdle(codec: Codec, bs: Bytes, cancelled: bool) {
    var p, record := Complete(codec, bs), codec.trim(Split(bs).rest);
    cancelled || record == [] ||
    match codec.parse(record)
    case None => p.sawAnyEvent
    case Some(e) => codec.trimText(AtEnd(codec, bs).finalContent) != "" || p.sawWorkflowDone || !e.workflowDone
  }

  /** Exactly when the last separator makes a difference to the caller. */
  lemma LastSeparatorChangesOutcomeIff(codec: Codec, bs: Bytes, cancelled: bool)
    requires codec.trim([]) == []
    ensures OutcomeOf(codec, bs + [SEPARATOR], EndOfFile, cancelled) == OutcomeOf(codec, bs, EndOfFile, cancelled) <==>
            SeparatorIsIdle(codec, bs, cancelled)
  {
    LastSeparatorMatters(codec, bs);
    SplitEnded(bs);
    HandlingKeepsCalm(codec, START, Kept(codec, Split(bs).records));
  }

  /** As long as no event was seen, there is no text and no end of the workflow either. */
  lemma {:induction false} HandlingKeepsCalm(codec: Codec, p: Progress, records: seq<Bytes>)
    requires !p.sawAnyEvent ==> p.finalContent == "" && !p.sawWorkflowDone
    ensures var q := AllHandled(codec, p, records); !q.sawAnyEvent ==> q.finalContent == "" && !q.sawWorkflowDone
    decreases |records|
  {
    if records != [] { HandlingKeepsCalm(codec, Handled(codec, p, records[0]), records[1..]); }
  }

  function AsItIs<T>(x: T): T {
    x
  }

  function ParseDone(record: Bytes): Option<Event> {
    if record == [0x44] then Some(Event("", "", "", "", true)) else None
  }

  const TINY := Codec(AsItIs, ParseDone, AsItIs)

  /** One event that ends the workflow: with its separator the call succeeds, without it
      there is no briefing. */
  lemma LastSeparatorDecides()
    ensures OutcomeOf(TINY, [0x44], EndOfFile, false).failure == Some(NoBriefing)
    ensures OutcomeOf(TINY, [0x44, SEPARATOR], EndOfFile, false).failure == None
  {
    OneRecord(0x44);
  }

  /** One record that does not parse: the errors differ. */
  lemma LastSeparatorChangesError()
    ensures OutcomeOf(TINY, [0x45], EndOfFile, false).failure == Some(NoEvents)
    ensures OutcomeOf(TINY, [0x45, SEPARATOR], EndOfFile, false).failure == Some(NoBriefing)
  {
    OneRecord(0x45);
  }

  lemma OneRecord(b: bv8)
    requires b != SEPARATOR
    ensures Split([b]) == Pieces([], [b]) && Split([b, SEPARATOR]) == Pieces([[b]], [])
    ensures Complete(TINY, [b]) == START && Complete(TINY, [b, SEPARATOR]) == Handled(TINY, START, [b])
  {
    var unended := Pieces([], [b]);
    assert Join(unended) == [b];
    SplitUndoesJoin(unended);
    SplitEnded([b]);
    assert [b] + [SEPARATOR] == [b, SEPARATOR];
    assert [] + [[b]] == [[b]];
    KeptEnded(TINY, [], [b]);
    HandledOneMore(TINY, START, [], [b]);
  }

  // ------------------------------------------------ the outcome, read off the records

  /** The last nonempty partial text among the events of a list of records. */
  function LastPartial(codec: Codec, records: seq<Bytes>): string {
    if records == [] then ""
    else
      var earlier := LastPartial(codec, records[..|records| - 1]);
      match codec.parse(records[|records| - 1])
      case Some(e) => if e.partial == "" then earlier else e.partial
      case None => earlier
  }

  /** One event calls back with its status when it has both parts, and then with its partial
      text unless that is empty or the last one again. */
  function CallbacksOfEvent(e: Event, earlier: string): seq<Callback> {
    if e.stage == "" || e.message == "" then
      if e.partial == "" || e.partial == earlier then [] else [OnPartial(e.partial)]
    else if e.partial == "" || e.partial == earlier then [OnStatus(e.stage, e.message)]
    else [OnStatus(e.stage, e.message), OnPartial(e.partial)]
  }

  function CallbacksOf(codec: Codec, records: seq<Bytes>): seq<Callback> {
    if records == [] then []
    else
      var rest := records[..|records| - 1];
      match codec.parse(records[|records| - 1])
      case Some(e) => CallbacksOf(codec, rest) + CallbacksOfEvent(e, LastPartial(codec, rest))
      case None => CallbacksOf(codec, rest)
  }

  lemma NotedCallbacks(p: Progress, e: Event)
    ensures Noted(p, e).callbacks == p.callbacks + CallbacksOfEvent(e, p.lastPartial)
  {}

  /** The callbacks are those of the events, in the order of the records. */
  lemma {:induction false} CallbacksInOrder(codec: Codec, records: seq<Bytes>)
    ensures var p := AllHandled(codec, START, records);
            p.callbacks == CallbacksOf(codec, records) && p.lastPartial == LastPartial(codec, records)
  {
    if records != [] {
      var rest, last := records[..|records| - 1], records[|records| - 1];
      CallbacksInOrder(codec, rest);
      HandledOneMore(codec, START, rest, last);
      assert records == rest + [last];
      var parsed := codec.parse(last);
      if parsed.Some? { NotedCallbacks(AllHandled(codec, START, rest), parsed.value); }
    }
  }

  ghost predicate EndsWorkflow(codec: Codec, records: seq<Bytes>) {
    exists r :: r in records && codec.parse(r).Some? && codec.parse(r).value.workflowDone
  }

  /** What the records and the event of the rest, if it is one, amount to for the caller. */
  ghost predicate Amounts(codec: Codec, records: seq<Bytes>, tail: Option<Event>, cancelled: bool, o: Outcome) {
    var text := if tail.Some? && tail.value.briefing != "" then tail.value.briefing else LastBriefing(codec, records);
    var more := if tail.Some? then CallbacksOfEvent(tail.value, LastPartial(codec, records)) else [];
    && o.callbacks == CallbacksOf(codec, records) + more
    && if cancelled then o.failure == Some(Cancelled) && o.content == text
       else if records == [] && tail.None? then o.failure == Some(NoEvents) && o.content == ""
       else if codec.trimText(text) == "" && !EndsWorkflow(codec, records)
         then o.failure == Some(NoBriefing) && o.content == text
       else o.failure == None && o.content == codec.trimText(text)
  }

  /** The outcome of a stream that was read to its end, in terms of its records and its rest;
      and of one that broke off, which keeps the text of the complete records. */
  lemma OutcomeAmounts(codec: Codec, bs: Bytes, cancelled: bool)
    ensures var rest := codec.trim(Split(bs).rest);
            Amounts(codec, Kept(codec, Split(bs).records), if rest == [] then None else codec.parse(rest), cancelled,
                    OutcomeOf(codec, bs, EndOfFile, cancelled))
    ensures var o, records := OutcomeOf(codec, bs, ReadError, cancelled), Kept(codec, Split(bs).records);
            o.failure == Some(ReadFailed) && o.content == LastBriefing(codec, records) &&
            o.callbacks == CallbacksOf(codec, records)
  {
    var records, rest := Kept(codec, Split(bs).records), codec.trim(Split(bs).rest);
    CallbacksInOrder(codec, records);
    FinalIsLastBriefing(codec, records);
    StatusesInOrder(codec, records);
    var tail := if rest == [] then None else codec.parse(rest);
    if tail.Some? { NotedCallbacks(Complete(codec, bs), tail.value); }
  }

  /** The separator is the ASCII record separator. */
  lemma SeparatorIsRecordSeparator(record: Bytes, more: Bytes)
    requires 30 !in record
    ensures Split(record + [30] + more) == Pieces([record] + Split(more).records, Split(more).rest)
  {
    SplitOneMore(record, more);
  }
}
