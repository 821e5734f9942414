/**
 The interactive TELNET transcript of ncc/interactive_telnet.py: strict command and result
 pairs, nothing after a failed result but the end, and exact counts. The JSON of a record is
 already taken apart.
 */
module InteractiveTelnet {
  import opened Wrappers
  import opened Octets
  import opened Digests
  import opened JsonLines

  datatype Stamp = Stamp(time: int) | Malformed

  datatype Status = Complete | Interrupted | ResponseLimit | SessionClosed | TimedOut | OtherStatus(name: string)

  datatype Prompt = NoPrompt | DdtStar | OtherPrompt(name: string)

  datatype Reason = Failed | InputEof | InterruptedEnd | MaxCommands | OperatorQuit | OtherReason(name: string)

  datatype Limits = Limits(maxCommandBytes: nat, maxCommands: nat, maxResponseBytes: nat)

  /** `attributed` says that the record names its proper source; `captured` are the code points
      of the captured text. */
  datatype Record =
    | SessionStart(limits: Limits)
    | Command(sequence: int, number: int, observedAt: Stamp, attributed: bool, text: string, encodedBytes: int)
    | Result(sequence: int, number: int, observedAt: Stamp, attributed: bool, status: Status, prompt: Prompt,
             elapsed: int, captured: seq<nat>, capturedBytes: int, digest: Digest, truncated: bool)
    | SessionEnd(sequence: int, observedAt: Stamp, reason: Reason, commands: int, completed: int, failed: int)
    | OtherRecord

  datatype Exchange = Exchange(number: int, command: string, commandAt: Stamp, resultAt: Stamp, status: Status,
                               prompt: Prompt, elapsed: int, captured: seq<Octet>, truncated: bool)

  datatype Error =
    | NoStart
    | NotWritable
    | PendingResult
    | AfterFailure
    | CommandLimit
    | Blank
    | NotPrintable
    | TooLong
    | BadSequence
    | BadIdentity
    | BadCount
    | BadStamp
    | NoCommand
    | UnknownStatus
    | PromptDisagrees
    | BadElapsed
    | TruncationDisagrees
    | NotLatin1
    | ResponseTooLong
    | BadDigest
    | UnknownReason
    | CountsDisagree
    | CleanAfterFailure
    | AfterEnd
    | UnknownRecord

  // ----- operator commands -----

  /** What Python's str.strip removes. */
  predicate IsSpace(c: char) {
    var n := c as int;
    9 <= n <= 13 || 28 <= n <= 32 || n in {0x85, 0xA0, 0x1680, 0x2028, 0x2029, 0x202F, 0x205F, 0x3000}
      || 0x2000 <= n <= 0x200A
  }

  predicate Printable(c: char) { 0x20 <= c as int <= 0x7E }

  predicate Ascii(c: char) { c as int < 0x80 }

  function ValidateOperatorCommand(text: string, limit: nat): Option<Error> {
    if forall i :: 0 <= i < |text| ==> IsSpace(text[i]) then Some(Blank)
    else if exists i :: 0 <= i < |text| && !Ascii(text[i]) then Some(NotPrintable)
    else if |text| > limit then Some(TooLong)
    else if exists i :: 0 <= i < |text| && !Printable(text[i]) then Some(NotPrintable)
    else None
  }

  /** An accepted line is printable ASCII, within the limit, and more than spaces. */
  lemma AcceptedCommand(text: string, limit: nat)
    ensures ValidateOperatorCommand(text, limit).None? <==>
      && |text| <= limit && (forall i :: 0 <= i < |text| ==> Printable(text[i]))
      && exists i :: 0 <= i < |text| && text[i] != ' '
  {
    if |text| <= limit && (forall i :: 0 <= i < |text| ==> Printable(text[i])) {
      assert forall i :: 0 <= i < |text| ==> (IsSpace(text[i]) <==> text[i] == ' ');
    }
  }

  // ----- reading -----

  datatype Pending = Pending(number: int, text: string, observedAt: Stamp)

  datatype Session = Session(exchanges: seq<Exchange>, pending: Option<Pending>, failed: bool, end: Option<Reason>)

  const EMPTY: Session := Session([], None, false, None)

  function CommandError(record: Record, sequence: int, number: int, limit: nat): Option<Error>
    requires record.Command?
  {
    if record.sequence != sequence then Some(BadSequence)
    else if record.number != number || !record.attributed then Some(BadIdentity)
    else if ValidateOperatorCommand(record.text, limit).Some? then ValidateOperatorCommand(record.text, limit)
    else if record.encodedBytes != |record.text| then Some(BadCount)
    else if record.observedAt.Malformed? then Some(BadStamp)
    else None
  }

  predicate Latin1(captured: seq<nat>) { forall i :: 0 <= i < |captured| ==> captured[i] < 0x100 }

  function Bytes(captured: seq<nat>): (bytes: seq<Octet>)
    requires Latin1(captured)
    ensures |bytes| == |captured| && forall i :: 0 <= i < |bytes| ==> bytes[i] == captured[i]
  {
    seq(|captured|, i requires 0 <= i < |captured| => captured[i])
  }

  function ResultError(record: Record, sequence: int, number: int, limit: nat): Option<Error>
    requires record.Result?
  {
    if record.sequence != sequence || record.number != number || !record.attributed then Some(BadIdentity)
    else if record.status.OtherStatus? then Some(UnknownStatus)
    else if record.status.Complete? != record.prompt.DdtStar? then Some(PromptDisagrees)
    else if record.elapsed < 0 then Some(BadElapsed)
    else if record.truncated != record.status.ResponseLimit? then Some(TruncationDisagrees)
    else if !Latin1(record.captured) then Some(NotLatin1)
    else if record.capturedBytes != |record.captured| then Some(BadCount)
    else if |record.captured| > limit then Some(ResponseTooLong)
    else if record.digest != Sha256(Bytes(record.captured)) then Some(BadDigest)
    else if record.observedAt.Malformed? then Some(BadStamp)
    else None
  }

  function EndError(record: Record, sequence: int, commands: nat, completed: nat, failed: nat): Option<Error>
    requires record.SessionEnd?
  {
    if record.sequence != sequence then Some(BadSequence)
    else if record.reason.OtherReason? then Some(UnknownReason)
    else if record.commands != commands || record.completed != completed || record.failed != failed
         || completed + failed != commands then Some(CountsDisagree)
    else if (record.reason.OperatorQuit? || record.reason.InputEof? || record.reason.MaxCommands?) && failed > 0
      then Some(CleanAfterFailure)
    else if record.observedAt.Malformed? then Some(BadStamp)
    else None
  }

  function CompletedCount(exchanges: seq<Exchange>): (n: nat)
    ensures n <= |exchanges|
  {
    if exchanges == [] then 0
    else CompletedCount(exchanges[..|exchanges| - 1]) + if exchanges[|exchanges| - 1].status.Complete? then 1 else 0
  }

  /** Commands read so far, answered or not. */
  function Commands(session: Session): nat { |session.exchanges| + if session.pending.Some? then 1 else 0 }

  function ReadRecord(limits: Limits, session: Session, sequence: nat, record: Record): Result<Session, Error> {
    if session.end.Some? then Err(AfterEnd)
    else match record
      case Command(_, number, observedAt, _, text, _) =>
        if Commands(session) + 1 > limits.maxCommands then Err(CommandLimit)
        else if session.pending.Some? then Err(PendingResult)
        else if session.failed then Err(AfterFailure)
        else if CommandError(record, sequence, Commands(session) + 1, limits.maxCommandBytes).Some?
          then Err(CommandError(record, sequence, Commands(session) + 1, limits.maxCommandBytes).value)
        else Ok(session.(pending := Some(Pending(number, text, observedAt))))
      case Result(_, _, observedAt, _, status, prompt, elapsed, captured, _, _, truncated) =>
        if session.pending.None? then Err(NoCommand)
        else
          var p := session.pending.value;
          if ResultError(record, sequence, p.number, limits.maxResponseBytes).Some?
            then Err(ResultError(record, sequence, p.number, limits.maxResponseBytes).value)
          else
            var exchange := Exchange(p.number, p.text, p.observedAt, observedAt, status, prompt, elapsed,
                                     Bytes(captured), truncated);
            Ok(Session(session.exchanges + [exchange], None, !status.Complete?, None))
      case SessionEnd(_, _, reason, _, _, _) =>
        if session.pending.Some? then Err(PendingResult)
        else
          var (n, completed) := (|session.exchanges|, CompletedCount(session.exchanges));
          if EndError(record, sequence, n, completed, n - completed).Some?
            then Err(EndError(record, sequence, n, completed, n - completed).value)
          else Ok(session.(end := Some(reason)))
      case _ => Err(UnknownRecord)
  }

  /** The records after the session start. */
  function ReadLog(limits: Limits, log: seq<Record>): Result<Session, Error> {
    if log == [] then Ok(EMPTY)
    else
      match ReadLog(limits, log[..|log| - 1])
      case Err(e) => Err(e)
      case Ok(session) => ReadRecord(limits, session, |log|, log[|log| - 1])
  }

  function ReadStream(records: seq<Record>): Result<Session, Error> {
    if records == [] || !records[0].SessionStart? || !ValidLimits(records[0].limits) then Err(NoStart)
    else ReadLog(records[0].limits, records[1..])
  }

  predicate ValidLimits(limits: Limits) {
    limits.maxCommandBytes > 0 && limits.maxCommands > 0 && limits.maxResponseBytes > 0
  }

  lemma {:induction false} FirstError(limits: Limits, log: seq<Record>, k: nat)
    requires k <= |log| && ReadLog(limits, log[..k]).Err?
    ensures ReadLog(limits, log) == ReadLog(limits, log[..k])
  {
    hide ReadRecord;
    if k == |log| {
      assert log[..k] == log;
    } else {
      assert log[..|log| - 1][..k] == log[..k];
      FirstError(limits, log[..|log| - 1], k);
    }
  }

  method ReadInteractiveTelnetStream(records: seq<Record>) returns (result: Result<Session, Error>)
    ensures result == ReadStream(records)
  {
    hide CommandError, ResultError, EndError;
    if records == [] || !records[0].SessionStart? || !ValidLimits(records[0].limits) { return Err(NoStart); }
    var (limits, log) := (records[0].limits, records[1..]);
    var expectedSequence, expectedNumber := 1, 1;
    var pending: Option<Pending> := None;
    var exchanges, failed, terminal := [], false, None;
    for i := 0 to |log|
      invariant expectedSequence == i + 1
      invariant expectedNumber == |exchanges| + (if pending.Some? then 1 else 0) + 1
      invariant ReadLog(limits, log[..i]) == Ok(Session(exchanges, pending, failed, terminal))
    {
      var record := log[i];
      assert log[..i + 1][..i] == log[..i];
      var step := ReadRecord(limits, Session(exchanges, pending, failed, terminal), expectedSequence, record);
      if step.Err? {
        FirstError(limits, log, i + 1);
        return Err(step.error);
      }
      match record {
        case Command(_, number, observedAt, _, text, _) =>
          pending := Some(Pending(number, text, observedAt));
          expectedNumber := expectedNumber + 1;
        case Result(_, _, observedAt, _, status, prompt, elapsed, captured, _, _, truncated) =>
          assert Latin1(captured) by {
            GoodResult(record, expectedSequence, pending.value.number, limits.maxResponseBytes);
          }
          exchanges := exchanges + [Exchange(pending.value.number, pending.value.text, pending.value.observedAt,
                                             observedAt, status, prompt, elapsed, Bytes(captured), truncated)];
          failed := !status.Complete?;
          pending := None;
        case SessionEnd(_, _, reason, _, _, _) => terminal := Some(reason);
      }
      expectedSequence := expectedSequence + 1;
    }
    assert log[..|log|] == log;
    return Ok(Session(exchanges, pending, failed, terminal));
  }

  lemma GoodResult(record: Record, sequence: int, number: int, limit: nat)
    requires record.Result? && ResultError(record, sequence, number, limit).None?
    ensures Latin1(record.captured)
  {
  }

  // ----- what a readable log means -----

  /** Commands are numbered from one, only the last exchange may have failed, a failure is
      remembered, and every limit holds. */
  predicate Orderly(limits: Limits, session: Session) {
    && (forall i :: 0 <= i < |session.exchanges| ==> OrderlyExchange(limits, session.exchanges[i], i))
    && (forall i :: 0 <= i < |session.exchanges| - 1 ==> session.exchanges[i].status.Complete?)
    && (session.failed <==> session.exchanges != [] && !session.exchanges[|session.exchanges| - 1].status.Complete?)
    && (session.failed ==> session.pending.None?)
    && (session.pending.Some? ==>
          session.end.None? && OrderlyPending(limits, session.pending.value, |session.exchanges|))
    && Commands(session) <= limits.maxCommands
  }

  predicate OrderlyPending(limits: Limits, p: Pending, answered: nat) {
    p.number == answered + 1 && ValidateOperatorCommand(p.text, limits.maxCommandBytes).None?
  }

  predicate OrderlyExchange(limits: Limits, e: Exchange, i: nat) {
    && e.number == i + 1 && ValidateOperatorCommand(e.command, limits.maxCommandBytes).None?
    && |e.captured| <= limits.maxResponseBytes && e.elapsed >= 0 && !e.status.OtherStatus?
    && (e.prompt.DdtStar? <==> e.status.Complete?) && (e.truncated <==> e.status.ResponseLimit?)
  }

  lemma {:induction false} ReadIsOrderly(limits: Limits, log: seq<Record>)
    requires ReadLog(limits, log).Ok?
    ensures Orderly(limits, ReadLog(limits, log).value)
  {
    hide ValidateOperatorCommand;
    if log != [] {
      ReadIsOrderly(limits, log[..|log| - 1]);
      StepIsOrderly(limits, ReadLog(limits, log[..|log| - 1]).value, |log|, log[|log| - 1]);
    }
  }

  lemma StepIsOrderly(limits: Limits, session: Session, sequence: nat, record: Record)
    requires Orderly(limits, session) && ReadRecord(limits, session, sequence, record).Ok?
    ensures Orderly(limits, ReadRecord(limits, session, sequence, record).value)
  {
    hide ValidateOperatorCommand;
  }

  /** A clean ending is only read when no command failed, and the counts that end a session
      are those of its exchanges. */
  lemma {:induction false} EndsHonestly(limits: Limits, log: seq<Record>)
    requires ReadLog(limits, log).Ok? && ReadLog(limits, log).value.end.Some?
    ensures var session := ReadLog(limits, log).value;
      && log != [] && log[|log| - 1].SessionEnd? && session.pending.None?
      && log[|log| - 1].commands == |session.exchanges|
      && log[|log| - 1].completed == CompletedCount(session.exchanges)
      && log[|log| - 1].failed == (if session.failed then 1 else 0)
      && (session.end.value.OperatorQuit? || session.end.value.InputEof? || session.end.value.MaxCommands? ==>
          !session.failed)
  {
    var session := ReadLog(limits, log).value;
    ReadIsOrderly(limits, log);
    CountOrderly(limits, session.exchanges);
    hide CommandError, ResultError, OrderlyExchange;
  }

  lemma {:induction false} CountOrderly(limits: Limits, exchanges: seq<Exchange>)
    requires forall i :: 0 <= i < |exchanges| - 1 ==> exchanges[i].status.Complete?
    ensures CompletedCount(exchanges) ==
      |exchanges| - if exchanges != [] && !exchanges[|exchanges| - 1].status.Complete? then 1 else 0
  {
    if exchanges != [] {
      CountOrderly(limits, exchanges[..|exchanges| - 1]);
    }
  }

  /** No command ever follows a failed result. */
  lemma {:induction false} NothingAfterFailure(limits: Limits, log: seq<Record>, i: nat, j: nat)
    requires ReadLog(limits, log).Ok? && i < j < |log| && log[i].Result? && !log[i].status.Complete?
    ensures !log[j].Command? && !log[j].Result?
    decreases j
  {
    hide CommandError, ResultError, EndError;
    PrefixReads(limits, log, j + 1);
    PrefixReads(limits, log, i + 1);
    FailureStays(limits, log, i, j);
    assert log[..j + 1][..j] == log[..j] && log[..j + 1][j] == log[j];
    PrefixReads(limits, log, j);
    ReadIsOrderly(limits, log[..j]);
  }

  lemma {:induction false} FailureStays(limits: Limits, log: seq<Record>, i: nat, j: nat)
    requires ReadLog(limits, log).Ok? && i < j <= |log| && log[i].Result? && !log[i].status.Complete?
    ensures ReadLog(limits, log[..j]).Ok? && ReadLog(limits, log[..j]).value.failed
  {
    hide CommandError, ResultError, EndError;
    PrefixReads(limits, log, j);
    assert log[..j][..j - 1] == log[..j - 1] && log[..j][j - 1] == log[j - 1];
    if j - 1 > i {
      FailureStays(limits, log, i, j - 1);
      ReadIsOrderly(limits, log[..j - 1]);
    }
  }

  lemma {:induction false} PrefixReads(limits: Limits, log: seq<Record>, k: nat)
    requires ReadLog(limits, log).Ok? && k <= |log|
    ensures ReadLog(limits, log[..k]).Ok?
  {
    if ReadLog(limits, log[..k]).Err? {
      FirstError(limits, log, k);
    }
  }

  /** What a prefix holds is a prefix of what the whole holds. */
  lemma {:induction false} PrefixHolds(limits: Limits, log: seq<Record>, k: nat)
    requires ReadLog(limits, log).Ok? && k <= |log|
    ensures ReadLog(limits, log[..k]).Ok?
    ensures ReadLog(limits, log[..k]).value.exchanges <= ReadLog(limits, log).value.exchanges
    ensures k < |log| ==> ReadLog(limits, log[..k]).value.end.None?
  {
    hide CommandError, ResultError, EndError;
    if k == |log| {
      assert log[..k] == log;
    } else {
      var rest := log[..|log| - 1];
      assert rest[..k] == log[..k];
      PrefixHolds(limits, rest, k);
      if k == |rest| { assert log[..k] == rest; }
    }
  }

  // ----- which logs are readable, and what they hold -----

  /** The answer before record i was a failure. */
  predicate AfterFailed(log: seq<Record>, i: nat)
    requires i < |log|
  {
    i > 0 && log[i - 1].Result? && log[i - 1].status != Complete
  }

  /** A command stands first or after a good answer, and is the next by number. */
  predicate GoodCommand(limits: Limits, log: seq<Record>, i: nat)
    requires i < |log| && log[i].Command?
  {
    && i % 2 == 0 && (i > 0 ==> log[i - 1].Result?) && !AfterFailed(log, i)
    && log[i].sequence == i + 1 && log[i].number == i / 2 + 1 <= limits.maxCommands
    && log[i].attributed && log[i].observedAt.Stamp?
    && |log[i].text| <= limits.maxCommandBytes && log[i].encodedBytes == |log[i].text|
    && (forall j :: 0 <= j < |log[i].text| ==> ' ' <= log[i].text[j] <= '~')
    && (exists j :: 0 <= j < |log[i].text| && log[i].text[j] != ' ')
  }

  /** An answer stands right after its command and has its number. */
  predicate GoodAnswer(limits: Limits, log: seq<Record>, i: nat)
    requires i < |log| && log[i].Result?
  {
    && i % 2 == 1 && log[i - 1].Command?
    && log[i].sequence == i + 1 && log[i].number == i / 2 + 1
    && log[i].attributed && log[i].observedAt.Stamp? && log[i].elapsed >= 0
    && log[i].status in {Complete, Interrupted, ResponseLimit, SessionClosed, TimedOut}
    && (log[i].prompt == DdtStar <==> log[i].status == Complete)
    && (log[i].truncated <==> log[i].status == ResponseLimit)
    && log[i].capturedBytes == |log[i].captured| <= limits.maxResponseBytes
    && Latin1(log[i].captured) && log[i].digest == Sha256(Bytes(log[i].captured))
  }

  /** An end stands where a command might, and counts the answers, the last of which may have failed. */
  predicate GoodEnd(log: seq<Record>, i: nat)
    requires i < |log| && log[i].SessionEnd?
  {
    && i % 2 == 0 && (i > 0 ==> log[i - 1].Result?)
    && log[i].sequence == i + 1 && log[i].observedAt.Stamp?
    && log[i].commands == i / 2 && log[i].failed == (if AfterFailed(log, i) then 1 else 0)
    && log[i].completed == i / 2 - log[i].failed
    && log[i].reason in {Failed, InputEof, InterruptedEnd, MaxCommands, OperatorQuit}
    && (log[i].reason in {OperatorQuit, InputEof, MaxCommands} ==> !AfterFailed(log, i))
  }

  predicate Good(limits: Limits, log: seq<Record>, i: nat)
    requires i < |log|
  {
    match log[i]
    case Command(_, _, _, _, _, _) => GoodCommand(limits, log, i)
    case Result(_, _, _, _, _, _, _, _, _, _, _) => GoodAnswer(limits, log, i)
    case SessionEnd(_, _, _, _, _, _) => GoodEnd(log, i)
    case _ => false
  }

  /** The exchange is made of a command and the answer after it. */
  predicate MadeOf(e: Exchange, command: Record, answer: Record) {
    && command.Command? && answer.Result?
    && e.number == command.number && e.command == command.text && e.commandAt == command.observedAt
    && e.resultAt == answer.observedAt && e.status == answer.status && e.prompt == answer.prompt
    && e.elapsed == answer.elapsed && e.truncated == answer.truncated
    && Latin1(answer.captured) && e.captured == Bytes(answer.captured)
  }

  /** The session holds one exchange for each pair of records, the command not yet answered, and the end. */
  predicate Holds(log: seq<Record>, session: Session) {
    && |session.exchanges| == |log| / 2
    && (forall j :: 0 <= j < |log| / 2 ==> MadeOf(session.exchanges[j], log[2 * j], log[2 * j + 1]))
    && session.pending == (if log == [] then None else Unanswered(log[|log| - 1]))
    && session.failed == Broken(log)
    && session.end == (if log == [] then None else Ending(log[|log| - 1]))
  }

  function Unanswered(last: Record): Option<Pending> {
    if last.Command? then Some(Pending(last.number, last.text, last.observedAt)) else None
  }

  function Ending(last: Record): Option<Reason> {
    if last.SessionEnd? then Some(last.reason) else None
  }

  /** The last answer of the log was a failure. */
  predicate Broken(log: seq<Record>) {
    |log| >= 2 && log[|log| / 2 * 2 - 1].Result? && log[|log| / 2 * 2 - 1].status != Complete
  }

  /** A transcript is readable exactly when each of its records is good where it stands, and
      what is read is what the records say. */
  lemma {:induction false} ReadsExactly(limits: Limits, log: seq<Record>)
    ensures ReadLog(limits, log).Ok? <==> forall i :: 0 <= i < |log| ==> Good(limits, log, i)
    ensures ReadLog(limits, log).Ok? ==> Holds(log, ReadLog(limits, log).value)
  {
    hide *;
    if log == [] {
      ReadNothing(limits);
    } else {
      var rest := log[..|log| - 1];
      ReadsExactly(limits, rest);
      forall i: nat | i < |rest| ensures Good(limits, rest, i) <==> Good(limits, log, i) {
        GoodInPrefix(limits, log, i);
      }
      ReadLast(limits, log);
      if ReadLog(limits, rest).Ok? {
        Next(limits, log);
      }
    }
  }

  lemma ReadNothing(limits: Limits)
    ensures ReadLog(limits, []) == Ok(EMPTY) && Holds([], EMPTY)
  {
  }

  lemma ReadLast(limits: Limits, log: seq<Record>)
    requires log != []
    ensures ReadLog(limits, log) ==
      match ReadLog(limits, log[..|log| - 1])
      case Err(e) => Err(e)
      case Ok(session) => ReadRecord(limits, session, |log|, log[|log| - 1])
  {
  }

  lemma GoodInPrefix(limits: Limits, log: seq<Record>, i: nat)
    requires i < |log| - 1
    ensures Good(limits, log[..|log| - 1], i) <==> Good(limits, log, i)
  {
  }

  /** One more record is read exactly when it is good where it stands. */
  lemma Next(limits: Limits, log: seq<Record>)
    requires log != [] && ReadLog(limits, log[..|log| - 1]).Ok?
    requires forall i :: 0 <= i < |log| - 1 ==> Good(limits, log, i)
    requires Holds(log[..|log| - 1], ReadLog(limits, log[..|log| - 1]).value)
    ensures var next := ReadRecord(limits, ReadLog(limits, log[..|log| - 1]).value, |log|, log[|log| - 1]);
      && (next.Ok? <==> Good(limits, log, |log| - 1))
      && (next.Ok? ==> Holds(log, next.value))
  {
    hide *;
    var before := ReadLog(limits, log[..|log| - 1]).value;
    ReadIsOrderly(limits, log[..|log| - 1]);
    FailedCount(limits, log[..|log| - 1]);
    match log[|log| - 1]
    case Command(_, _, _, _, _, _) => NextCommand(limits, log, before);
    case Result(_, _, _, _, _, _, _, _, _, _, _) => NextResult(limits, log, before);
    case SessionEnd(_, _, _, _, _, _) => NextEnd(limits, log, before);
    case _ => NextOther(limits, log, before);
  }

  /** What is known of a session read from all but the last record of a log. */
  predicate Standing(limits: Limits, log: seq<Record>, before: Session)
    requires log != []
  {
    && Holds(log[..|log| - 1], before)
    && (|log| > 1 ==> Good(limits, log, |log| - 2))
    && Orderly(limits, before)
    && |before.exchanges| - CompletedCount(before.exchanges) == (if before.failed then 1 else 0)
  }

  /** Where the last record of the log stands, from the session before it. */
  lemma Position(limits: Limits, log: seq<Record>, before: Session)
    requires log != [] && Standing(limits, log, before)
    ensures var n := |log| - 1;
      && (n % 2 == 0 ==> before.pending.None? && before.end.None? && (n > 0 ==> log[n - 1].Result?))
      && (n % 2 == 1 ==> before.pending.Some? || before.end.Some?)
      && (n % 2 == 1 && before.end.None? ==> log[n - 1].Command? && before.pending == Unanswered(log[n - 1]))
      && |before.exchanges| == n / 2
      && (n % 2 == 0 ==> before.failed == AfterFailed(log, n))
      && (before.end.Some? <==> n > 0 && log[n - 1].SessionEnd?)
      && (before.end.None? && before.pending.Some? ==> before.pending.value.number == n / 2 + 1 && !before.failed)
  {
    hide OrderlyExchange, CompletedCount, MadeOf, Bytes, Latin1, ValidateOperatorCommand;
  }

  lemma NextCommand(limits: Limits, log: seq<Record>, before: Session)
    requires log != [] && Standing(limits, log, before) && log[|log| - 1].Command?
    ensures var next := ReadRecord(limits, before, |log|, log[|log| - 1]);
      && (next.Ok? <==> Good(limits, log, |log| - 1))
      && (next.Ok? ==> Holds(log, next.value))
  {
    Position(limits, log, before);
    AcceptedCommand(log[|log| - 1].text, limits.maxCommandBytes);
  }

  lemma NextResult(limits: Limits, log: seq<Record>, before: Session)
    requires log != [] && Standing(limits, log, before) && log[|log| - 1].Result?
    ensures var next := ReadRecord(limits, before, |log|, log[|log| - 1]);
      && (next.Ok? <==> Good(limits, log, |log| - 1))
      && (next.Ok? ==> Holds(log, next.value))
  {
    Position(limits, log, before);
  }

  lemma NextEnd(limits: Limits, log: seq<Record>, before: Session)
    requires log != [] && Standing(limits, log, before) && log[|log| - 1].SessionEnd?
    ensures var next := ReadRecord(limits, before, |log|, log[|log| - 1]);
      && (next.Ok? <==> Good(limits, log, |log| - 1))
      && (next.Ok? ==> Holds(log, next.value))
  {
    Position(limits, log, before);
  }

  lemma NextOther(limits: Limits, log: seq<Record>, before: Session)
    requires log != [] && (log[|log| - 1].OtherRecord? || log[|log| - 1].SessionStart?)
    ensures ReadRecord(limits, before, |log|, log[|log| - 1]).Err? && !Good(limits, log, |log| - 1)
  {
  }

  // ----- recording -----

  class InteractiveTelnetRecorder {
    const limits: Limits
    var log: seq<Record>
    var nextSequence: nat
    var commandCount: nat
    var completedCommands: nat
    var failedCommands: nat
    var pending: Option<int>
    var failed: bool
    var terminal: bool
    var closed: bool

    /** The log reads back, and every field is what reading it gives. */
    ghost predicate Valid()
      reads this
    {
      && ValidLimits(limits) && nextSequence == |log| + 1 && ReadLog(limits, log).Ok?
      && Matches(ReadLog(limits, log).value)
    }

    ghost predicate Matches(session: Session)
      reads this
    {
      && commandCount == Commands(session) && completedCommands == CompletedCount(session.exchanges)
      && failedCommands == |session.exchanges| - completedCommands
      && pending == (match session.pending case None => None case Some(p) => Some(p.number))
      && failed == session.failed && terminal == session.end.Some?
    }

    ghost function Recorded(): Session
      reads this
      requires Valid()
    {
      ReadLog(limits, log).value
    }

    constructor (limits: Limits)
      requires ValidLimits(limits)
      ensures Valid() && this.limits == limits && Recorded() == EMPTY && log == [] && !closed
    {
      this.limits := limits;
      log, nextSequence, commandCount, completedCommands, failedCommands := [], 1, 0, 0, 0;
      pending, failed, terminal, closed := None, false, false, false;
    }

    /** Writes a record that the reader is known to accept next. */
    method Write(record: Record)
      requires nextSequence == |log| + 1
      modifies this`log, this`nextSequence
      ensures log == old(log) + [record] && nextSequence == |log| + 1
      ensures ReadLog(limits, log) ==
        match ReadLog(limits, old(log))
        case Err(e) => Err(e)
        case Ok(session) => ReadRecord(limits, session, |log|, record)
    {
      assert (log + [record])[..|log|] == log;
      log := log + [record];
      nextSequence := nextSequence + 1;
    }

    /** One operator line. It is recorded exactly when nothing is pending, nothing has failed,
        the limit leaves room and the line is acceptable; otherwise nothing changes. */
    method Command(text: string, observedAt: Stamp) returns (number: Result<int, Error>)
      requires Valid()
      modifies this
      ensures Valid() && closed == old(closed)
      ensures number.Ok? <==>
        && !old(closed) && !old(terminal) && old(Recorded()).pending.None? && !old(Recorded()).failed
        && Commands(old(Recorded())) < limits.maxCommands
        && ValidateOperatorCommand(text, limits.maxCommandBytes).None? && observedAt.Stamp?
      ensures number.Err? ==> log == old(log) && Recorded() == old(Recorded())
      ensures number.Ok? ==> |log| == |old(log)| + 1 && old(log) <= log
      ensures number.Ok? ==>
        && number.value == |old(Recorded()).exchanges| + 1
        && Recorded() == old(Recorded()).(pending := Some(Pending(number.value, text, observedAt)))
    {
      hide ValidateOperatorCommand, ReadLog;
      if closed || terminal { return Err(NotWritable); }
      if pending.Some? { return Err(PendingResult); }
      if failed { return Err(AfterFailure); }
      if commandCount >= limits.maxCommands { return Err(CommandLimit); }
      var error := ValidateOperatorCommand(text, limits.maxCommandBytes);
      if error.Some? { return Err(error.value); }
      var record := Record.Command(nextSequence, commandCount + 1, observedAt, true, text, |text|);
      error := CommandError(record, nextSequence, commandCount + 1, limits.maxCommandBytes);
      if error.Some? { return Err(error.value); }
      Write(record);
      commandCount := commandCount + 1;
      pending := Some(commandCount);
      return Ok(commandCount);
    }

    /** The answer to the pending command, exactly as captured. */
    method Answer(number: int, observedAt: Stamp, status: Status, elapsed: int, captured: seq<Octet>, truncated: bool)
      returns (result: Result<(), Error>)
      requires Valid()
      modifies this
      ensures Valid() && closed == old(closed)
      ensures result.Ok? <==>
        && !old(closed) && !old(terminal) && old(Recorded()).pending.Some?
        && old(Recorded()).pending.value.number == number
        && |captured| <= limits.maxResponseBytes && !status.OtherStatus? && elapsed >= 0
        && truncated == status.ResponseLimit? && observedAt.Stamp?
      ensures result.Err? ==> log == old(log) && Recorded() == old(Recorded())
      ensures result.Ok? ==> |log| == |old(log)| + 1 && old(log) <= log
      ensures result.Ok? ==>
        var p := old(Recorded()).pending.value;
        Recorded() == Session(
          old(Recorded()).exchanges + [Exchange(p.number, p.text, p.observedAt, observedAt, status,
            if status.Complete? then DdtStar else NoPrompt, elapsed, captured, truncated)],
          None, !status.Complete?, None)
    {
      hide ReadLog, ResultError, Bytes, Latin1, CompletedCount;
      if closed || terminal { return Err(NotWritable); }
      if pending.None? || pending.value != number { return Err(NoCommand); }
      if |captured| > limits.maxResponseBytes { return Err(ResponseTooLong); }
      if status.OtherStatus? { return Err(UnknownStatus); }
      var record := Record.Result(nextSequence, number, observedAt, true, status,
                                  if status.Complete? then DdtStar else NoPrompt,
                                  elapsed, Codes(captured), |captured|, Sha256(captured), truncated);
      AnswerRecord(record, captured, limits.maxResponseBytes);
      PendingNotFailed(limits, log);
      var error := ResultError(record, nextSequence, number, limits.maxResponseBytes);
      if error.Some? { return Err(error.value); }
      ghost var before := Recorded();
      Write(record);
      pending := None;
      AnswerCounts(before.exchanges, ReadLog(limits, log).value.exchanges[|before.exchanges|]);
      if status.Complete? {
        completedCommands := completedCommands + 1;
      } else {
        failedCommands := failedCommands + 1;
        failed := true;
      }
      return Ok(());
    }

    /** The end of the session, with its exact counts. */
    method Complete(observedAt: Stamp, reason: Reason) returns (result: Result<(), Error>)
      requires Valid()
      modifies this
      ensures Valid() && closed == old(closed)
      ensures result.Ok? <==>
        && !old(closed) && !old(terminal) && old(Recorded()).pending.None? && !reason.OtherReason? && observedAt.Stamp?
        && (reason.OperatorQuit? || reason.InputEof? || reason.MaxCommands? ==> !old(Recorded()).failed)
      ensures result.Err? ==> log == old(log) && Recorded() == old(Recorded())
      ensures result.Ok? ==> |log| == |old(log)| + 1 && old(log) <= log
      ensures result.Ok? ==> Recorded() == old(Recorded()).(end := Some(reason))
    {
      hide ReadLog, CompletedCount;
      FailedCount(limits, log);
      if closed || terminal { return Err(NotWritable); }
      if pending.Some? { return Err(PendingResult); }
      var record := SessionEnd(nextSequence, observedAt, reason, commandCount, completedCommands, failedCommands);
      var error := EndError(record, nextSequence, commandCount, completedCommands, failedCommands);
      if error.Some? { return Err(error.value); }
      Write(record);
      terminal := true;
      return Ok(());
    }

    method Close()
      requires Valid()
      modifies this`closed
      ensures Valid() && closed
    {
      closed := true;
    }

    /** The file cut anywhere after its first line: the reader accepts it, with the exchanges
        recorded whole before the cut. */
    lemma CutAnywhere(encode: Record -> string, decode: string -> Option<Record>, k: nat)
      requires Valid() && Codec(encode, decode)
      requires k <= |Text(Encoded(encode, [SessionStart(limits)] + log))|
      requires WholeLines(Encoded(encode, [SessionStart(limits)] + log), k) >= 1
      ensures var file := [SessionStart(limits)] + log;
        var m := WholeLines(Encoded(encode, file), k);
        && ReadCut(encode, decode, file, k) == Some(file[..m])
        && ReadStream(file[..m]) == ReadLog(limits, log[..m - 1]) && ReadStream(file[..m]).Ok?
        && ReadStream(file[..m]).value.exchanges <= Recorded().exchanges
    {
      hide WholeLines, Text, ReadCut, ReadLog;
      var file := [SessionStart(limits)] + log;
      var m := WholeLines(Encoded(encode, file), k);
      CutRecords(encode, decode, file, k);
      assert file[..m][1..] == log[..m - 1];
      PrefixHolds(limits, log, m - 1);
    }
  }

  lemma PendingNotFailed(limits: Limits, log: seq<Record>)
    requires ReadLog(limits, log).Ok? && ReadLog(limits, log).value.pending.Some?
    ensures !ReadLog(limits, log).value.failed
  {
    ReadIsOrderly(limits, log);
  }

  function Codes(captured: seq<Octet>): (codes: seq<nat>)
    ensures |codes| == |captured| && forall i :: 0 <= i < |codes| ==> codes[i] == captured[i]
  {
    seq(|captured|, i requires 0 <= i < |captured| => captured[i] as nat)
  }

  /** A record made of a well attributed answer is refused for its time, its flag or its stamp only. */
  lemma AnswerRecord(record: Record, captured: seq<Octet>, limit: nat)
    requires record.Result? && record.attributed && !record.status.OtherStatus? && |captured| <= limit
    requires record.prompt == (if record.status.Complete? then DdtStar else NoPrompt)
    requires record.captured == Codes(captured) && record.capturedBytes == |captured|
      && record.digest == Sha256(captured)
    ensures Latin1(record.captured) && Bytes(record.captured) == captured
    ensures ResultError(record, record.sequence, record.number, limit).None? <==>
      record.elapsed >= 0 && record.truncated == record.status.ResponseLimit? && record.observedAt.Stamp?
  {
    assert Bytes(record.captured) == captured;
  }

  lemma AnswerCounts(before: seq<Exchange>, e: Exchange)
    ensures CompletedCount(before + [e]) == CompletedCount(before) + if e.status.Complete? then 1 else 0
  {
    assert (before + [e])[..|before|] == before;
  }

  lemma FailedCount(limits: Limits, log: seq<Record>)
    requires ReadLog(limits, log).Ok?
    ensures var session := ReadLog(limits, log).value;
      |session.exchanges| - CompletedCount(session.exchanges) == if session.failed then 1 else 0
  {
    ReadIsOrderly(limits, log);
    hide ReadLog, OrderlyExchange, OrderlyPending;
    CountOrderly(limits, ReadLog(limits, log).value.exchanges);
  }
}
