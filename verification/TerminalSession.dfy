/**
 The retained byte stream of ncc/terminal_session.py: a recorder that appends bounded
 chunks, and the reader that must get the same bytes back from what it wrote.
 */
module TerminalSession {
  import opened Digests
  import opened JsonLines
  import opened Octets
  import opened Wrappers

  datatype Direction = OperatorToPdp11 | Pdp11ToOperator | OtherDirection(name: string)

  datatype Control =
    | BlockedSimulatorWru
    | RejectedNonSevenBit
    | CutRequested
    | CutNotReady
    | CutAlreadyRequested
    | OtherControl(name: string)

  datatype EndReason =
    | OperatorExit
    | InputEof
    | Interrupted
    | ProcessExit
    | InputLimit
    | OutputLimit
    | Failed
    | OtherReason(name: string)

  /** An observation time as the timestamp pattern sees it. */
  datatype Stamp = Stamp(seconds: int) | Malformed

  datatype Record =
    | SessionStart(limits: Limits)
    | Data(sequence: int, observedAt: Stamp, direction: Direction, data: seq<Octet>, byteCount: int, digest: Digest)
    | LocalControl(sequence: int, observedAt: Stamp, control: Control, count: int)
    | SessionEnd(sequence: int, observedAt: Stamp, reason: EndReason, inputBytes: int, outputBytes: int,
                 inputDigest: Digest, outputDigest: Digest, dataRecords: int, controlRecords: int)

  datatype Limits = Limits(maxInput: nat, maxOutput: nat, maxChunk: nat, failover: bool) {
    predicate Valid() {
      1 <= maxInput <= 0x100_0000 && 1 <= maxOutput <= 0x400_0000 && 1 <= maxChunk <= 0x1_0000 &&
      (maxChunk <= maxInput || maxChunk <= maxOutput)
    }
  }

  datatype Session = Session(input: seq<Octet>, output: seq<Octet>, controls: seq<(Control, int)>,
                             dataRecords: nat, end: Option<EndReason>)

  datatype Error =
    | NotWritable
    | NoStart
    | UnknownRecord
    | UnknownDirection
    | UnknownControl
    | UnknownReason
    | BadStamp
    | BadSequence
    | BadChunk
    | BadDigest
    | BadCount
    | OverLimit
    | RecordAfterEnd
    | EndDisagrees

  const EMPTY := Session([], [], [], 0, None)

  predicate Allowed(control: Control, failover: bool) {
    match control
    case BlockedSimulatorWru | RejectedNonSevenBit => true
    case OtherControl(_) => false
    case _ => failover
  }

  // ----- reading -----

  /** What one more record does to a session read so far. */
  function ReadRecord(limits: Limits, session: Session, expected: nat, record: Record): Result<Session, Error> {
    if session.end.Some? then Err(RecordAfterEnd)
    else if record.SessionStart? then Err(UnknownRecord)
    else if record.sequence != expected then Err(BadSequence)
    else if record.observedAt.Malformed? then Err(BadStamp)
    else match record
      case Data(_, _, direction, data, byteCount, digest) =>
        if direction.OtherDirection? then Err(UnknownDirection)
        else if data == [] || |data| > limits.maxChunk then Err(BadChunk)
        else if byteCount != |data| || digest != Sha256(data) then Err(BadDigest)
        else
          var (input, output) := if direction.OperatorToPdp11? then (session.input + data, session.output)
                                 else (session.input, session.output + data);
          if |input| > limits.maxInput || |output| > limits.maxOutput then Err(OverLimit)
          else Ok(session.(input := input, output := output, dataRecords := session.dataRecords + 1))
      case LocalControl(_, _, control, count) =>
        if !Allowed(control, limits.failover) then Err(UnknownControl)
        else if !(1 <= count <= 65536) then Err(BadCount)
        else Ok(session.(controls := session.controls + [(control, count)]))
      case SessionEnd(_, _, reason, inputBytes, outputBytes, inputDigest, outputDigest, dataRecords, controlRecords) =>
        if reason.OtherReason? then Err(UnknownReason)
        else if inputBytes != |session.input| || outputBytes != |session.output|
             || inputDigest != Sha256(session.input) || outputDigest != Sha256(session.output)
             || dataRecords != session.dataRecords || controlRecords != |session.controls| then Err(EndDisagrees)
        else Ok(session.(end := Some(reason)))
  }

  function ReadLog(limits: Limits, log: seq<Record>): Result<Session, Error> {
    if log == [] then Ok(EMPTY)
    else var (rest, last) := (log[..|log| - 1], log[|log| - 1]);
      match ReadLog(limits, rest)
      case Err(e) => Err(e)
      case Ok(session) => ReadRecord(limits, session, |log|, last)
  }

  /** A whole file: its first record, and the log after it. */
  function ReadStream(records: seq<Record>): Result<Session, Error> {
    if records == [] || !records[0].SessionStart? || !records[0].limits.Valid() then Err(NoStart)
    else ReadLog(records[0].limits, records[1..])
  }

  lemma ReadAppend(limits: Limits, log: seq<Record>, record: Record)
    ensures ReadLog(limits, log + [record]) ==
      match ReadLog(limits, log)
      case Err(e) => Err(e)
      case Ok(session) => ReadRecord(limits, session, |log| + 1, record)
  {
    assert (log + [record])[..|log|] == log;
  }

  /** Reading stops at the first fault, so a log's error is its shortest faulty prefix's. */
  lemma {:induction false} ErrorIsFinal(limits: Limits, log: seq<Record>, k: nat)
    requires k <= |log| && ReadLog(limits, log[..k]).Err?
    ensures ReadLog(limits, log) == ReadLog(limits, log[..k])
  {
    if k == |log| {
      assert log[..k] == log;
    } else {
      var rest := log[..|log| - 1];
      assert rest[..k] == log[..k];
      ErrorIsFinal(limits, rest, k);
    }
  }

  method ReadTerminalSession(records: seq<Record>) returns (result: Result<Session, Error>)
    ensures result == ReadStream(records)
  {
    if records == [] || !records[0].SessionStart? || !records[0].limits.Valid() { return Err(NoStart); }
    var limits, log := records[0].limits, records[1..];
    var expected := 1;
    var input, output, controls, dataRecords, end := [], [], [], 0, None;
    for i := 0 to |log|
      invariant expected == i + 1
      invariant ReadLog(limits, log[..i]) == Ok(Session(input, output, controls, dataRecords, end))
    {
      var record := log[i];
      assert log[..i + 1] == log[..i] + [record];
      ReadAppend(limits, log[..i], record);
      var step := ReadRecord(limits, Session(input, output, controls, dataRecords, end), expected, record);
      if step.Err? {
        ErrorIsFinal(limits, log, i + 1);
        return step;
      }
      match record {
        case Data(_, _, direction, data, _, _) =>
          if direction.OperatorToPdp11? {
            input := input + data;
          } else {
            output := output + data;
          }
          dataRecords := dataRecords + 1;
        case LocalControl(_, _, control, count) =>
          controls := controls + [(control, count)];
        case SessionEnd(_, _, reason, _, _, _, _, _, _) =>
          end := Some(reason);
      }
      expected := expected + 1;
    }
    assert log[..|log|] == log;
    return Ok(Session(input, output, controls, dataRecords, end));
  }

  /** A prefix of a readable log is readable, and what it holds is a prefix of the whole. */
  lemma {:induction false} ReadingIsPrefixClosed(limits: Limits, log: seq<Record>, k: nat)
    requires ReadLog(limits, log).Ok? && k <= |log|
    ensures ReadLog(limits, log[..k]).Ok?
    ensures var (part, whole) := (ReadLog(limits, log[..k]).value, ReadLog(limits, log).value);
      part.input <= whole.input && part.output <= whole.output && part.controls <= whole.controls
    ensures k < |log| ==> ReadLog(limits, log[..k]).value.end.None?
  {
    if k < |log| {
      var rest := log[..|log| - 1];
      ReadingIsPrefixClosed(limits, rest, k);
      assert rest[..k] == log[..k];
      if k == |rest| { assert rest[..k] == rest; }
    } else {
      assert log[..k] == log;
    }
  }

  /** The directional limits hold of every session the reader accepts. */
  lemma {:induction false} ReadWithinLimits(limits: Limits, log: seq<Record>)
    requires ReadLog(limits, log).Ok?
    ensures var session := ReadLog(limits, log).value;
      |session.input| <= limits.maxInput && |session.output| <= limits.maxOutput
  {
    if log != [] {
      ReadWithinLimits(limits, log[..|log| - 1]);
    }
  }

  // ----- which logs are readable, and what they hold -----

  /** The bytes that the data records of one direction carry, one after another. */
  function Carried(log: seq<Record>, toGuest: bool): seq<Octet> {
    if log == [] then []
    else
      var last := log[|log| - 1];
      Carried(log[..|log| - 1], toGuest)
      + if last.Data? && last.direction.OperatorToPdp11? == toGuest then last.data else []
  }

  function DataRecords(log: seq<Record>): nat {
    if log == [] then 0 else DataRecords(log[..|log| - 1]) + if log[|log| - 1].Data? then 1 else 0
  }

  function Controls(log: seq<Record>): seq<(Control, int)> {
    if log == [] then []
    else
      var last := log[|log| - 1];
      Controls(log[..|log| - 1]) + if last.LocalControl? then [(last.control, last.count)] else []
  }

  /** What a readable log holds. */
  function Content(log: seq<Record>): Session {
    Session(Carried(log, true), Carried(log, false), Controls(log), DataRecords(log),
            if log != [] && log[|log| - 1].SessionEnd? then Some(log[|log| - 1].reason) else None)
  }

  predicate GoodData(limits: Limits, log: seq<Record>, i: nat)
    requires i < |log| && log[i].Data?
  {
    && (log[i].direction == OperatorToPdp11 || log[i].direction == Pdp11ToOperator)
    && 1 <= |log[i].data| <= limits.maxChunk
    && log[i].byteCount == |log[i].data| && log[i].digest == Sha256(log[i].data)
    && |Carried(log[..i + 1], true)| <= limits.maxInput && |Carried(log[..i + 1], false)| <= limits.maxOutput
  }

  predicate GoodControl(limits: Limits, record: Record)
    requires record.LocalControl?
  {
    && 1 <= record.count <= 65536
    && (record.control in {BlockedSimulatorWru, RejectedNonSevenBit}
        || (limits.failover && record.control in {CutRequested, CutNotReady, CutAlreadyRequested}))
  }

  /** An end record counts and digests everything before it. */
  predicate GoodEnd(log: seq<Record>, i: nat)
    requires i < |log| && log[i].SessionEnd?
  {
    && log[i].reason in {OperatorExit, InputEof, Interrupted, ProcessExit, InputLimit, OutputLimit, Failed}
    && log[i].inputBytes == |Carried(log[..i], true)| && log[i].inputDigest == Sha256(Carried(log[..i], true))
    && log[i].outputBytes == |Carried(log[..i], false)| && log[i].outputDigest == Sha256(Carried(log[..i], false))
    && log[i].dataRecords == DataRecords(log[..i]) && log[i].controlRecords == |Controls(log[..i])|
  }

  predicate Good(limits: Limits, log: seq<Record>, i: nat)
    requires i < |log|
  {
    && !log[i].SessionStart? && log[i].sequence == i + 1 && log[i].observedAt.Stamp?
    && (i > 0 ==> !log[i - 1].SessionEnd?)
    && (log[i].Data? ==> GoodData(limits, log, i))
    && (log[i].LocalControl? ==> GoodControl(limits, log[i]))
    && (log[i].SessionEnd? ==> GoodEnd(log, i))
  }

  /** A log is readable exactly when each of its records is good where it stands, and what is
      read is what the records carry. */
  lemma {:induction false} ReadsExactly(limits: Limits, log: seq<Record>)
    ensures ReadLog(limits, log).Ok? <==> forall i :: 0 <= i < |log| ==> Good(limits, log, i)
    ensures ReadLog(limits, log).Ok? ==> ReadLog(limits, log).value == Content(log)
  {
    hide *;
    hide GoodData, GoodControl, GoodEnd, Good, ReadRecord;
    if log == [] {
      ReadNothing(limits);
    } else {
      var rest := log[..|log| - 1];
      ReadsExactly(limits, rest);
      forall i: nat | i < |rest| ensures Good(limits, rest, i) <==> Good(limits, log, i) {
        GoodInPrefix(limits, log, i);
      }
      if ReadLog(limits, rest).Ok? {
        ReadWithinLimits(limits, rest);
        ReadsNext(limits, log, ReadLog(limits, rest).value);
      }
      ReadLast(limits, log);
    }
  }

  lemma ReadNothing(limits: Limits)
    ensures ReadLog(limits, []) == Ok(Content([]))
  {
  }

  lemma ReadLast(limits: Limits, log: seq<Record>)
    requires log != []
    ensures ReadLog(limits, log) ==
      match ReadLog(limits, log[..|log| - 1])
      case Err(e) => Err(e)
      case Ok(session) => ReadRecord(limits, session, |log|, log[|log| - 1])
  {
  }

  lemma GoodInPrefix(limits: Limits, log: seq<Record>, i: nat)
    requires i < |log| - 1
    ensures Good(limits, log[..|log| - 1], i) <==> Good(limits, log, i)
  {
    var rest := log[..|log| - 1];
    assert rest[..i] == log[..i] && rest[..i + 1] == log[..i + 1];
  }

  /** One more record is read exactly when it is good where it stands. */
  lemma ReadsNext(limits: Limits, log: seq<Record>, before: Session)
    requires log != []
    requires before == Content(log[..|log| - 1])
    requires |before.input| <= limits.maxInput && |before.output| <= limits.maxOutput
    ensures ReadRecord(limits, before, |log|, log[|log| - 1]).Ok? <==> Good(limits, log, |log| - 1)
    ensures Good(limits, log, |log| - 1) ==>
      ReadRecord(limits, before, |log|, log[|log| - 1]).value == Content(log)
  {
    assert log[..|log|] == log;
  }

  // ----- recording -----

  function Extend(session: Session, direction: Direction, data: seq<Octet>): Session {
    if direction.OperatorToPdp11? then session.(input := session.input + data)
    else session.(output := session.output + data)
  }

  /** Sessions with the same content, however it was cut into data records. */
  predicate SameContent(a: Session, b: Session) { a.(dataRecords := 0) == b.(dataRecords := 0) }

  /** Bytes of this direction that still fit. */
  function Room(limits: Limits, session: Session, direction: Direction): int {
    if direction.OperatorToPdp11? then limits.maxInput - |session.input| else limits.maxOutput - |session.output|
  }

  function Whole(chunks: nat, size: nat): nat { chunks * size }

  /** The chunk starting at `kept` is the first one the recorder cannot write. */
  predicate StopsAt(limits: Limits, session: Session, direction: Direction, length: nat, kept: nat, observedAt: Stamp) {
    var chunk := if kept + limits.maxChunk < length then limits.maxChunk else length - kept;
    if observedAt.Malformed? then kept == 0
    else (kept == 0 || kept <= Room(limits, session, direction)) && Room(limits, session, direction) < kept + chunk
  }

  /** What a refused call leaves: the whole chunks before the first one that cannot be written. */
  ghost predicate PartlyWritten(limits: Limits, before: Session, after: Session, direction: Direction,
                          data: seq<Octet>, observedAt: Stamp) {
    exists chunks: nat | Whole(chunks, limits.maxChunk) <= |data| ::
      SameContent(after, Extend(before, direction, data[..Whole(chunks, limits.maxChunk)])) &&
      StopsAt(limits, before, direction, |data|, Whole(chunks, limits.maxChunk), observedAt)
  }

  lemma Stopped(limits: Limits, before: Session, after: Session, direction: Direction, data: seq<Octet>,
                observedAt: Stamp, chunks: nat)
    requires Whole(chunks, limits.maxChunk) <= |data|
    requires SameContent(after, Extend(before, direction, data[..Whole(chunks, limits.maxChunk)]))
    requires StopsAt(limits, before, direction, |data|, Whole(chunks, limits.maxChunk), observedAt)
    ensures PartlyWritten(limits, before, after, direction, data, observedAt)
  {
  }

  /** Content appended twice is content appended once; it takes its room. */
  lemma ExtendTwice(before: Session, between: Session, after: Session, direction: Direction,
                    a: seq<Octet>, b: seq<Octet>)
    requires SameContent(between, Extend(before, direction, a)) && SameContent(after, Extend(between, direction, b))
    ensures SameContent(after, Extend(before, direction, a + b))
  {
    if direction.OperatorToPdp11? {
      assert before.input + (a + b) == (before.input + a) + b;
    } else {
      assert before.output + (a + b) == (before.output + a) + b;
    }
  }

  lemma RoomLeft(limits: Limits, before: Session, between: Session, direction: Direction, a: seq<Octet>)
    requires SameContent(between, Extend(before, direction, a))
    ensures Room(limits, between, direction) == Room(limits, before, direction) - |a|
  {
  }

  lemma NothingWritten(limits: Limits, session: Session, direction: Direction, data: seq<Octet>)
    ensures SameContent(session, Extend(session, direction, data[..0])) && Whole(0, limits.maxChunk) == 0
  {
    assert data[..0] == [] && session.input + [] == session.input && session.output + [] == session.output;
  }

  lemma WholeNext(chunks: nat, size: nat)
    ensures Whole(chunks + 1, size) == Whole(chunks, size) + size
  {
  }

  class TerminalSessionRecorder {
    const limits: Limits
    var log: seq<Record>
    var nextSequence: nat
    var inputBytes: nat
    var outputBytes: nat
    var inputHashed: seq<Octet>   // the bytes the running input hash has absorbed
    var outputHashed: seq<Octet>
    var dataRecords: nat
    var controlRecords: nat
    var terminal: bool
    var closed: bool

    /** The log reads back, and the counters are those of what reads back. */
    ghost predicate Valid()
      reads this
    {
      && limits.Valid()
      && nextSequence == |log| + 1
      && ReadLog(limits, log).Ok?
      && var session := ReadLog(limits, log).value;
      && inputHashed == session.input && outputHashed == session.output
      && inputBytes == |session.input| && outputBytes == |session.output|
      && dataRecords == session.dataRecords && controlRecords == |session.controls|
      && terminal == session.end.Some?
    }

    ghost function Recorded(): Session
      reads this
      requires Valid()
    {
      ReadLog(limits, log).value
    }

    constructor (limits: Limits)
      requires limits.Valid()
      ensures Valid() && this.limits == limits && log == [] && Recorded() == EMPTY && !closed
    {
      this.limits := limits;
      log, nextSequence, inputBytes, outputBytes := [], 1, 0, 0;
      inputHashed, outputHashed, dataRecords, controlRecords := [], [], 0, 0;
      terminal, closed := false, false;
    }

    method AppendChunk(direction: Direction, chunk: seq<Octet>, observedAt: Stamp) returns (result: Result<(), Error>)
      requires Valid() && !terminal && !direction.OtherDirection?
      requires 0 < |chunk| <= limits.maxChunk
      modifies this
      ensures Valid() && !terminal && closed == old(closed)
      ensures result.Ok? <==> |chunk| <= Room(limits, old(Recorded()), direction) && observedAt.Stamp?
      ensures result.Err? ==> log == old(log) && Recorded() == old(Recorded())
      ensures result.Err? ==> result.error == if |chunk| > Room(limits, old(Recorded()), direction) then OverLimit
        else BadStamp
      ensures result.Ok? ==> |log| == |old(log)| + 1 && old(log) <= log
      ensures result.Ok? ==> SameContent(Recorded(), Extend(old(Recorded()), direction, chunk))
    {
      if direction.OperatorToPdp11? {
        if inputBytes + |chunk| > limits.maxInput {
          return Err(OverLimit);
        }
      } else if outputBytes + |chunk| > limits.maxOutput {
        return Err(OverLimit);
      }
      if observedAt.Malformed? {
        return Err(BadStamp);
      }
      var record := Data(nextSequence, observedAt, direction, chunk, |chunk|, Sha256(chunk));
      ReadWithinLimits(limits, log);
      ReadAppend(limits, log, record);
      log := log + [record];
      nextSequence := nextSequence + 1;
      dataRecords := dataRecords + 1;
      if direction.OperatorToPdp11? {
        inputBytes, inputHashed := inputBytes + |chunk|, inputHashed + chunk;
      } else {
        outputBytes, outputHashed := outputBytes + |chunk|, outputHashed + chunk;
      }
      return Ok(());
    }

    /** Appends all of `data`, or stops at the chunk that does not fit: a refused call can
        leave whole leading chunks behind, but never part of one. */
    method Bytes(direction: Direction, data: seq<Octet>, observedAt: Stamp) returns (result: Result<(), Error>)
      requires Valid()
      modifies this
      ensures Valid() && closed == old(closed) && old(log) <= log
      ensures old(closed || terminal) || direction.OtherDirection? ==> result.Err? && log == old(log)
      ensures result.Ok? <==>
        && old(!closed && !terminal) && !direction.OtherDirection?
        && (data == [] || (|data| <= Room(limits, old(Recorded()), direction) && observedAt.Stamp?))
      ensures result.Ok? ==> SameContent(Recorded(), Extend(old(Recorded()), direction, data))
      ensures result.Err? && old(!closed && !terminal) && !direction.OtherDirection? ==>
        PartlyWritten(limits, old(Recorded()), Recorded(), direction, data, observedAt)
    {
      if closed || terminal {
        return Err(NotWritable);
      }
      if direction.OtherDirection? {
        return Err(UnknownDirection);
      }
      hide ReadLog, PartlyWritten, Whole, Extend, SameContent, Room;
      var offset := 0;
      ghost var chunks: nat := 0;
      ghost var start := Recorded();
      NothingWritten(limits, start, direction, data);
      while offset < |data|
        invariant 0 <= offset <= |data| && (offset < |data| ==> offset == Whole(chunks, limits.maxChunk))
        invariant Valid() && !terminal && closed == old(closed) && old(log) <= log
        invariant SameContent(Recorded(), Extend(start, direction, data[..offset]))
        invariant offset > 0 ==> observedAt.Stamp? && offset <= Room(limits, start, direction)
      {
        var next := if offset + limits.maxChunk < |data| then offset + limits.maxChunk else |data|;
        ghost var between := Recorded();
        var step := AppendChunk(direction, data[offset..next], observedAt);
        RoomLeft(limits, start, between, direction, data[..offset]);
        if step.Err? {
          Stopped(limits, start, Recorded(), direction, data, observedAt, chunks);
          return step;
        }
        assert data[..next] == data[..offset] + data[offset..next];
        ExtendTwice(start, between, Recorded(), direction, data[..offset], data[offset..next]);
        WholeNext(chunks, limits.maxChunk);
        offset, chunks := next, chunks + 1;
      }
      assert data[..|data|] == data;
      return Ok(());
    }

    method Control(control: Control, count: int, observedAt: Stamp) returns (result: Result<(), Error>)
      requires Valid()
      modifies this
      ensures Valid() && closed == old(closed) && terminal == old(terminal)
      ensures result.Ok? <==> old(!closed && !terminal) && Allowed(control, limits.failover)
                              && 1 <= count <= 65536 && observedAt.Stamp?
      ensures result.Err? ==> log == old(log)
      ensures result.Ok? ==> old(log) <= log
      ensures result.Ok? ==>
        Recorded() == old(Recorded()).(controls := old(Recorded()).controls + [(control, count)])
    {
      if closed || terminal {
        return Err(NotWritable);
      }
      if !Allowed(control, limits.failover) {
        return Err(UnknownControl);
      }
      if !(1 <= count <= 65536) {
        return Err(BadCount);
      }
      if observedAt.Malformed? {
        return Err(BadStamp);
      }
      var record := LocalControl(nextSequence, observedAt, control, count);
      ReadAppend(limits, log, record);
      log := log + [record];
      nextSequence, controlRecords := nextSequence + 1, controlRecords + 1;
      return Ok(());
    }

    method Complete(reason: EndReason, observedAt: Stamp) returns (result: Result<(), Error>)
      requires Valid()
      modifies this
      ensures Valid() && closed == old(closed)
      ensures result.Ok? <==> old(!closed && !terminal) && !reason.OtherReason? && observedAt.Stamp?
      ensures result.Err? ==> log == old(log)
      ensures result.Ok? ==> old(log) <= log && Recorded() == old(Recorded()).(end := Some(reason))
    {
      if closed || terminal {
        return Err(NotWritable);
      }
      if reason.OtherReason? {
        return Err(UnknownReason);
      }
      if observedAt.Malformed? {
        return Err(BadStamp);
      }
      var record := SessionEnd(nextSequence, observedAt, reason, inputBytes, outputBytes,
                               Sha256(inputHashed), Sha256(outputHashed), dataRecords, controlRecords);
      ReadAppend(limits, log, record);
      log := log + [record];
      nextSequence, terminal := nextSequence + 1, true;
      return Ok(());
    }

    method Close()
      requires Valid()
      modifies this`closed
      ensures Valid() && closed && log == old(log)
    {
      closed := true;
    }

    /** The file cut anywhere after its first line: the reader accepts it, and gets from it the
        bytes both ways and the controls recorded whole before the cut; uncut, all of them. */
    lemma CutAnywhere(encode: Record -> string, decode: string -> Option<Record>, k: nat)
      requires Valid() && Codec(encode, decode)
      requires k <= |Text(Encoded(encode, [SessionStart(limits)] + log))|
      requires WholeLines(Encoded(encode, [SessionStart(limits)] + log), k) >= 1
      ensures var file := [SessionStart(limits)] + log;
        var m := WholeLines(Encoded(encode, file), k);
        && ReadCut(encode, decode, file, k) == Some(file[..m])
        && ReadStream(file[..m]) == ReadLog(limits, log[..m - 1]) && ReadStream(file[..m]).Ok?
        && var (part, whole) := (ReadStream(file[..m]).value, Recorded());
           && part.input <= whole.input && part.output <= whole.output && part.controls <= whole.controls
           && (if m == |file| then part == whole else part.end.None?)
    {
      hide WholeLines, Text, ReadCut, ReadLog;
      var file := [SessionStart(limits)] + log;
      var m := WholeLines(Encoded(encode, file), k);
      CutRecords(encode, decode, file, k);
      assert file[..m][1..] == log[..m - 1];
      ReadingIsPrefixClosed(limits, log, m - 1);
      assert log[..|log|] == log;
    }
  }
}
