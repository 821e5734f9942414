/**
 The message-journey sidecar of ncc/message_journey_stream.py: a recorder that writes batches
 of observations and one terminal diagnosis, and the reader that checks every record. The
 JSON of a record is already taken apart.
 */
module JourneyStream {
  import opened Wrappers
  import opened JsonLines
  import opened JourneyRoute
  import opened Journey
  import JourneyOrder

  datatype Record =
    | HeaderRecord(topology: Topology, journey: string, route: string, request: Expectation, reply: Expectation)
    | ObservationRecord(observation: Observation)
    | DiagnosisRecord(diagnosis: Diagnosis)
    | OtherRecord

  datatype StreamError = NoHeader | BadHeader | AfterTerminal | BadRecord | Rejected(error: Error) | Disagrees

  datatype Stream = Stream(topology: Topology, expected: Expected, observations: seq<Observation>, diagnosis: Diagnosis,
                           terminal: bool)

  function BuildExpected(t: Topology, journey: string, route: string, request: Expectation, reply: Expectation)
    : Result<Expected, RouteError>
    requires Valid(t)
  {
    match RouteBoundaries(t, route)
    case Err(e) => Err(e)
    case Ok(boundaries) => Ok(Expected(journey, t.id, route, request, reply, boundaries))
  }

  function ReadHeader(record: Record): Result<(Topology, Expected), StreamError> {
    if !record.HeaderRecord? || !Valid(record.topology) then Err(BadHeader)
    else
      match BuildExpected(record.topology, record.journey, record.route, record.request, record.reply)
      case Err(_) => Err(BadHeader)
      case Ok(expected) => Ok((record.topology, expected))
  }

  type Body = (seq<Observation>, Option<Diagnosis>)

  function ReadRecord(t: Topology, expected: Expected, body: Body, record: Record): Result<Body, StreamError>
    requires Valid(t)
  {
    if body.1.Some? then Err(AfterTerminal)
    else
      match record
      case ObservationRecord(o) =>
        if Diagnose(t, expected, body.0 + [o]).Err? then Err(Rejected(Diagnose(t, expected, body.0 + [o]).error))
        else Ok((body.0 + [o], None))
      case DiagnosisRecord(d) => Ok((body.0, Some(d)))
      case _ => Err(BadRecord)
  }

  function ReadBody(t: Topology, expected: Expected, records: seq<Record>): Result<Body, StreamError>
    requires Valid(t)
  {
    if records == [] then Ok(([], None))
    else
      match ReadBody(t, expected, records[..|records| - 1])
      case Err(e) => Err(e)
      case Ok(body) => ReadRecord(t, expected, body, records[|records| - 1])
  }

  /** The whole reader. */
  function ReadStream(records: seq<Record>): Result<Stream, StreamError> {
    if records == [] then Err(NoHeader)
    else
      match ReadHeader(records[0])
      case Err(e) => Err(e)
      case Ok((t, expected)) =>
        match ReadBody(t, expected, records[1..])
        case Err(e) => Err(e)
        case Ok((observations, terminal)) =>
          match Diagnose(t, expected, observations)
          case Err(e) => Err(Rejected(e))
          case Ok(diagnosis) =>
            if terminal.Some? && terminal.value != diagnosis then Err(Disagrees)
            else Ok(Stream(t, expected, observations, diagnosis, terminal.Some?))
  }

  method ReadMessageJourneyStream(records: seq<Record>) returns (result: Result<Stream, StreamError>)
    ensures result == ReadStream(records)
  {
    hide Diagnose, BuildExpected;
    if records == [] { return Err(NoHeader); }
    var header := ReadHeader(records[0]);
    if header.Err? { return Err(header.error); }
    var (t, expected) := header.value;
    assert Valid(t) by { HeaderValid(records[0]); }
    var observations, terminal := [], None;
    var body := records[1..];
    for i := 0 to |body|
      invariant ReadBody(t, expected, body[..i]) == Ok((observations, terminal))
    {
      assert body[..i + 1][..i] == body[..i];
      if terminal.Some? {
        FirstBodyError(t, expected, body, i + 1);
        return Err(AfterTerminal);
      }
      match body[i] {
        case ObservationRecord(o) =>
          var diagnosis := DiagnoseMessageJourney(t, expected, observations + [o]);
          if diagnosis.Err? {
            FirstBodyError(t, expected, body, i + 1);
            return Err(Rejected(diagnosis.error));
          }
          observations := observations + [o];
        case DiagnosisRecord(d) => terminal := Some(d);
        case _ =>
          FirstBodyError(t, expected, body, i + 1);
          return Err(BadRecord);
      }
    }
    assert body[..|body|] == body;
    var diagnosis := DiagnoseMessageJourney(t, expected, observations);
    if diagnosis.Err? { return Err(Rejected(diagnosis.error)); }
    if terminal.Some? && terminal.value != diagnosis.value { return Err(Disagrees); }
    return Ok(Stream(t, expected, observations, diagnosis.value, terminal.Some?));
  }

  lemma HeaderValid(record: Record)
    requires ReadHeader(record).Ok?
    ensures var (t, expected) := ReadHeader(record).value;
      Valid(t) && t.id == expected.topology && RouteBoundaries(t, expected.route) == Ok(expected.boundaries)
  {
    hide RouteBoundaries, Valid;
  }

  lemma {:induction false} FirstBodyError(t: Topology, expected: Expected, records: seq<Record>, k: nat)
    requires Valid(t) && k <= |records| && ReadBody(t, expected, records[..k]).Err?
    ensures ReadBody(t, expected, records) == ReadBody(t, expected, records[..k])
  {
    hide ReadRecord;
    if k == |records| {
      assert records[..k] == records;
    } else {
      assert records[..|records| - 1][..k] == records[..k];
      FirstBodyError(t, expected, records[..|records| - 1], k);
    }
  }

  // ----- what a recorder writes -----

  function Written(observations: seq<Observation>, terminal: Option<Diagnosis>): seq<Record> {
    seq(|observations|, i requires 0 <= i < |observations| => ObservationRecord(observations[i])) +
    if terminal.Some? then [DiagnosisRecord(terminal.value)] else []
  }

  lemma {:induction false} WrittenReads(t: Topology, expected: Expected, observations: seq<Observation>)
    requires Valid(t) && Diagnose(t, expected, observations).Ok?
    ensures ReadBody(t, expected, Written(observations, None)) == Ok((observations, None))
  {
    hide Diagnose;
    if observations != [] {
      var (rest, o) := (observations[..|observations| - 1], observations[|observations| - 1]);
      JourneyOrder.PrefixAccepted(t, expected, observations, |rest|);
      WrittenReads(t, expected, rest);
      assert Written(observations, None)[..|rest|] == Written(rest, None);
      assert rest + [o] == observations;
    }
  }

  /** A log of accepted observations, and of the reducer's own diagnosis if one is written,
      reads back as exactly that: a terminal diagnosis always re-verifies. */
  lemma LogReadsBack(header: Record, observations: seq<Observation>, terminal: bool)
    requires ReadHeader(header).Ok?
    requires Valid(ReadHeader(header).value.0)
    requires Diagnose(ReadHeader(header).value.0, ReadHeader(header).value.1, observations).Ok?
    ensures var (t, expected) := ReadHeader(header).value;
      var d := Diagnose(t, expected, observations).value;
      ReadStream([header] + Written(observations, if terminal then Some(d) else None))
        == Ok(Stream(t, expected, observations, d, terminal))
  {
    hide Diagnose, ReadHeader, ReadBody, Written;
    var (t, expected) := ReadHeader(header).value;
    var d := Diagnose(t, expected, observations).value;
    var body := Written(observations, if terminal then Some(d) else None);
    if terminal {
      TerminalReads(t, expected, observations, d);
    } else {
      WrittenReads(t, expected, observations);
    }
    assert ([header] + body)[1..] == body && ([header] + body)[0] == header;
  }

  lemma TerminalReads(t: Topology, expected: Expected, observations: seq<Observation>, d: Diagnosis)
    requires Valid(t) && Diagnose(t, expected, observations).Ok?
    ensures ReadBody(t, expected, Written(observations, Some(d))) == Ok((observations, Some(d)))
  {
    hide Diagnose;
    WrittenReads(t, expected, observations);
    var body := Written(observations, Some(d));
    assert body[..|body| - 1] == Written(observations, None) && body[|body| - 1] == DiagnosisRecord(d);
  }

  /** The log cut after any record past the header reads as the observations before the cut,
      and as terminal exactly when nothing is missing. */
  lemma CutReadsBack(header: Record, observations: seq<Observation>, terminal: bool, m: nat)
    requires ReadHeader(header).Ok?
    requires Valid(ReadHeader(header).value.0)
    requires Diagnose(ReadHeader(header).value.0, ReadHeader(header).value.1, observations).Ok?
    requires var d := Diagnose(ReadHeader(header).value.0, ReadHeader(header).value.1, observations).value;
      1 <= m <= 1 + |Written(observations, if terminal then Some(d) else None)|
    ensures var (t, expected) := ReadHeader(header).value;
      var d := Diagnose(t, expected, observations).value;
      var log := [header] + Written(observations, if terminal then Some(d) else None);
      var kept := if m - 1 <= |observations| then observations[..m - 1] else observations;
      && Diagnose(t, expected, kept).Ok?
      && ReadStream(log[..m]) == Ok(Stream(t, expected, kept, Diagnose(t, expected, kept).value,
                                           m == |observations| + 2))
  {
    hide Diagnose, ReadHeader, ReadStream;
    var (t, expected) := ReadHeader(header).value;
    var d := Diagnose(t, expected, observations).value;
    var log := [header] + Written(observations, if terminal then Some(d) else None);
    if m - 1 <= |observations| {
      var kept := observations[..m - 1];
      JourneyOrder.PrefixAccepted(t, expected, observations, m - 1);
      LogReadsBack(header, kept, false);
      assert log[..m] == [header] + Written(kept, None);
    } else {
      LogReadsBack(header, observations, terminal);
      assert log[..m] == log;
    }
  }

  class MessageJourneyStreamRecorder {
    const header: Record
    const topology: Topology
    const expected: Expected
    var observations: seq<Observation>
    var log: seq<Record>
    var terminal: bool
    var closed: bool

    /** The log is the header, the observations held, and their own diagnosis if terminal. */
    ghost predicate Valid()
      reads this
    {
      && ReadHeader(header) == Ok((topology, expected)) && JourneyRoute.Valid(topology)
      && Diagnose(topology, expected, observations).Ok?
      && log == [header] + Written(observations,
                                   if terminal then Some(Diagnose(topology, expected, observations).value) else None)
    }

    constructor (header: Record)
      requires ReadHeader(header).Ok?
      ensures Valid() && this.header == header && observations == [] && !terminal && !closed
    {
      this.header := header;
      topology, expected := ReadHeader(header).value.0, ReadHeader(header).value.1;
      observations, log, terminal, closed := [], [header], false, false;
      new;
      HeaderValid(header);
      assert log == [header] + Written([], None);
    }

    /** Whenever the file is read it holds exactly what the recorder holds. */
    lemma ReadsBack()
      requires Valid()
      ensures ReadStream(log) ==
        Ok(Stream(topology, expected, observations, Diagnose(topology, expected, observations).value, terminal))
    {
      LogReadsBack(header, observations, terminal);
    }

    /** A batch is published whole when the reducer accepts it after what is held already, and
        a refused one leaves the file and the recorder as they were. */
    method Publish(batch: seq<Observation>) returns (ok: bool)
      requires Valid()
      modifies this
      ensures Valid() && terminal == old(terminal) && closed == old(closed)
      ensures ok <==>
        !old(closed) && !old(terminal) && Diagnose(topology, expected, old(observations) + batch).Ok?
      ensures observations == if ok then old(observations) + batch else old(observations)
      ensures log == if ok then old(log) + Written(batch, None) else old(log)
    {
      hide Diagnose, ReadHeader;
      if closed || terminal { return false; }
      if batch == [] {
        assert observations + batch == observations && Written(batch, None) == [] && log + [] == log;
        return true;
      }
      var candidate := observations + batch;
      var diagnosis := DiagnoseMessageJourney(topology, expected, candidate);
      if diagnosis.Err? { return false; }
      observations := candidate;
      for i := 0 to |batch|
        invariant log == old(log) + Written(batch[..i], None)
        invariant observations == candidate && terminal == old(terminal) && closed == old(closed)
      {
        assert Written(batch[..i + 1], None) == Written(batch[..i], None) + [ObservationRecord(batch[i])];
        log := log + [ObservationRecord(batch[i])];
      }
      assert batch[..|batch|] == batch;
      assert Written(candidate, None) == Written(old(observations), None) + Written(batch, None);
      return true;
    }

    method Complete() returns (result: Option<Diagnosis>)
      requires Valid()
      modifies this
      ensures Valid() && observations == old(observations) && closed == old(closed)
      ensures result.Some? <==> !old(closed) && !old(terminal)
      ensures result.Some? ==> terminal && Ok(result.value) == Diagnose(topology, expected, observations)
      ensures result.None? ==> log == old(log) && terminal == old(terminal)
    {
      hide Diagnose, ReadHeader;
      if closed || terminal { return None; }
      var diagnosis := DiagnoseMessageJourney(topology, expected, observations);
      log := log + [DiagnosisRecord(diagnosis.value)];
      terminal := true;
      return Some(diagnosis.value);
    }

    method Close()
      requires Valid()
      modifies this`closed
      ensures Valid() && closed
    {
      closed := true;
    }

    /** Whether the first `m` records read as the observations among them, complete or not. */
    ghost predicate Reads(m: nat)
      reads this
      requires Valid() && 1 <= m <= |log|
    {
      var kept := if m - 1 <= |observations| then observations[..m - 1] else observations;
      && Diagnose(topology, expected, kept).Ok?
      && ReadStream(log[..m])
        == Ok(Stream(topology, expected, kept, Diagnose(topology, expected, kept).value, m == |observations| + 2))
    }

    lemma PrefixReads(m: nat)
      requires Valid() && 1 <= m <= |log|
      ensures Reads(m)
    {
      hide Diagnose, ReadHeader, ReadStream;
      CutReadsBack(header, observations, terminal, m);
    }

    /** The file cut anywhere after its header line, even inside a record: the reader gets the
        observations written whole, and a terminal diagnosis only if nothing is missing. */
    lemma CutAnywhere(encode: Record -> string, decode: string -> Option<Record>, k: nat)
      requires Valid() && Codec(encode, decode) && k <= |Text(Encoded(encode, log))|
      requires WholeLines(Encoded(encode, log), k) >= 1
      ensures var m := WholeLines(Encoded(encode, log), k);
        ReadCut(encode, decode, log, k) == Some(log[..m]) && Reads(m)
    {
      hide Valid, Reads, WholeLines, Text, ReadCut;
      CutRecords(encode, decode, log, k);
      PrefixReads(WholeLines(Encoded(encode, log), k));
    }
  }

  // ----- what the reader accepts -----

  lemma {:induction false} BodyIsWritten(t: Topology, expected: Expected, records: seq<Record>)
    requires Valid(t) && ReadBody(t, expected, records).Ok?
    ensures var (observations, terminal) := ReadBody(t, expected, records).value;
      records == Written(observations, terminal)
  {
    hide Diagnose;
    if records != [] {
      var (rest, record) := (records[..|records| - 1], records[|records| - 1]);
      BodyIsWritten(t, expected, rest);
      var (observations, _) := ReadBody(t, expected, rest).value;
      assert records == rest + [record];
    }
  }

  /** The reader accepts exactly what a recorder may have written: a header, observations that the
      reducer accepts, and at the end perhaps one diagnosis, which must be the reducer's own. */
  lemma StreamMeans(records: seq<Record>, s: Stream)
    ensures ReadStream(records) == Ok(s) <==>
      && records != [] && ReadHeader(records[0]) == Ok((s.topology, s.expected))
      && Valid(s.topology) && Diagnose(s.topology, s.expected, s.observations) == Ok(s.diagnosis)
      && records == [records[0]] + Written(s.observations, if s.terminal then Some(s.diagnosis) else None)
  {
    hide Diagnose, RouteBoundaries, Valid;
    if ReadStream(records) == Ok(s) {
      HeaderValid(records[0]);
      BodyIsWritten(s.topology, s.expected, records[1..]);
      assert records == [records[0]] + records[1..];
    }
    if records != [] && ReadHeader(records[0]) == Ok((s.topology, s.expected)) && Valid(s.topology)
       && Diagnose(s.topology, s.expected, s.observations) == Ok(s.diagnosis) {
      LogReadsBack(records[0], s.observations, s.terminal);
    }
  }
}
