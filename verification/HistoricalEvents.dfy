/**
 The direct-event stream of ncc/historical_events.py: its validation, the recorder that
 appends whole batches, and the reader. A record's JSON is already taken apart.
 */
module HistoricalEvents {
  import opened Wrappers

  type Time = int   // a timestamp in its smallest unit

  datatype Subject =
    | ImpSubject(imp: int)
    | HostSubject(imp: int, host: int)
    | LineSubject(imp: int, line: int)
    | OtherSubject(text: string)

  datatype State = Received | Up | Down | Looped | Unknown | OtherState(text: string)

  datatype EventType = ImpReport | HostState | LineState | ThroughputReport | OtherType(text: string)

  datatype SourceKind = TroubleSource | ThroughputSource | OtherSource(text: string)

  /** `neighbor` is the reported neighbour, if the details give one; zero stands for a value
      that is no IMP's number. */
  datatype Event = Event(sequence: int, observedAt: Time, kind: EventType, subject: Subject, state: State,
                         source: SourceKind, imp: int, neighbor: Option<int>)

  datatype Error =
    | BadSequence
    | BeforeStart
    | OutOfOrder
    | UnknownImp
    | BadSource
    | BadSubject
    | BadState
    | NeedsVersion2
    | UnsupportedType

  datatype Header = Header(version: int, startedAt: Time, imps: set<int>)

  /** _validate_event_shape, check by check. */
  function ShapeError(header: Header, e: Event): Option<Error> {
    if e.imp !in header.imps then Some(UnknownImp)
    else match e.kind
      case ImpReport =>
        if !e.source.TroubleSource? then Some(BadSource)
        else if e.subject != ImpSubject(e.imp) || !e.state.Received? then Some(BadState) else None
      case HostState =>
        if !e.source.TroubleSource? then Some(BadSource)
        else if !(e.subject.HostSubject? && 0 <= e.subject.host <= 3 && e.subject.imp == e.imp) then Some(BadSubject)
        else if !(e.state.Up? || e.state.Down?) then Some(BadState) else None
      case LineState =>
        if !e.source.TroubleSource? then Some(BadSource)
        else if !(e.subject.LineSubject? && 1 <= e.subject.line <= 5 && e.subject.imp == e.imp) then Some(BadSubject)
        else if !(e.state.Up? || e.state.Down? || e.state.Looped? || e.state.Unknown?) then Some(BadState) else None
      case ThroughputReport =>
        if header.version < 2 then Some(NeedsVersion2)
        else if !e.source.ThroughputSource? then Some(BadSource)
        else if e.subject != ImpSubject(e.imp) || !e.state.Received? then Some(BadState) else None
      case OtherType(_) => Some(UnsupportedType)
  }

  /** The fault of the record at `index`, given what precedes it. */
  function RecordError(header: Header, previous: Option<Time>, index: nat, e: Event): Option<Error> {
    if e.sequence != index then Some(BadSequence)
    else if e.observedAt < header.startedAt then Some(BeforeStart)
    else if previous.Some? && e.observedAt < previous.value then Some(OutOfOrder)
    else ShapeError(header, e)
  }

  function LastTime(events: seq<Event>): Option<Time> {
    if events == [] then None else Some(events[|events| - 1].observedAt)
  }

  /** The first fault of a whole stream. */
  function StreamError(header: Header, events: seq<Event>): Option<Error> {
    if events == [] then None
    else var rest := events[..|events| - 1];
      match StreamError(header, rest)
      case Some(error) => Some(error)
      case None => RecordError(header, LastTime(rest), |events|, events[|events| - 1])
  }

  /** What acceptance means: numbered from one, never before the start, never back in time,
      each record well shaped. */
  predicate Accepted(header: Header, events: seq<Event>) {
    forall i :: 0 <= i < |events| ==>
      && events[i].sequence == i + 1 && events[i].observedAt >= header.startedAt
      && (i > 0 ==> events[i - 1].observedAt <= events[i].observedAt)
      && ShapeError(header, events[i]).None?
  }

  lemma {:induction false} AcceptedExactly(header: Header, events: seq<Event>)
    ensures StreamError(header, events).None? <==> Accepted(header, events)
  {
    hide ShapeError;
    if events != [] {
      var rest := events[..|events| - 1];
      AcceptedExactly(header, rest);
      assert forall i :: 0 <= i < |rest| ==> events[i] == rest[i];
    }
  }

  lemma {:induction false} PrefixAccepted(header: Header, events: seq<Event>, k: nat)
    requires k <= |events| && StreamError(header, events).None?
    ensures StreamError(header, events[..k]).None?
  {
    AcceptedExactly(header, events);
    AcceptedExactly(header, events[..k]);
    hide ShapeError, StreamError;
  }

  method ValidateEventRecords(header: Header, events: seq<Event>) returns (error: Option<Error>)
    ensures error == StreamError(header, events)
  {
    hide ShapeError;
    var previous := None;
    for i := 0 to |events|
      invariant StreamError(header, events[..i]).None? && previous == LastTime(events[..i])
    {
      var e := events[i];
      assert events[..i + 1][..i] == events[..i];
      error := RecordError(header, previous, i + 1, e);
      if error.Some? {
        FirstError(header, events, i + 1);
        return;
      }
      previous := Some(e.observedAt);
    }
    assert events[..|events|] == events;
    return None;
  }

  lemma {:induction false} FirstError(header: Header, events: seq<Event>, k: nat)
    requires k <= |events| && StreamError(header, events[..k]).Some?
    ensures StreamError(header, events) == StreamError(header, events[..k])
  {
    hide RecordError;
    if k == |events| {
      assert events[..k] == events;
    } else {
      var rest := events[..|events| - 1];
      assert rest[..k] == events[..k];
      FirstError(header, rest, k);
    }
  }

  class HistoricalEventRecorder {
    const header: Header
    var log: seq<Event>        // the records written, which the recorder also keeps
    var closed: bool

    ghost predicate Valid()
      reads this
    {
      StreamError(header, log).None?
    }

    constructor (header: Header)
      ensures Valid() && log == [] && !closed && this.header == header
    {
      this.header, log, closed := header, [], false;
    }

    /** A batch is written whole, when it continues the stream, or not at all; so the log is
        always one the reader accepts, and so is the log cut after any record. */
    method Append(batch: seq<Event>) returns (ok: bool)
      requires Valid()
      modifies this
      ensures Valid() && closed == old(closed)
      ensures forall k :: 0 <= k <= |log| ==> StreamError(header, log[..k]).None?
      ensures ok <==> !old(closed) && Accepted(header, old(log) + batch)
      ensures log == if ok then old(log) + batch else old(log)
    {
      hide StreamError, Accepted, ShapeError;
      forall part, k | StreamError(header, part).None? && 0 <= k <= |part|
        ensures StreamError(header, part[..k]).None?
      {
        PrefixAccepted(header, part, k);
      }
      AcceptedExactly(header, log + batch);
      ok := false;
      if closed { return; }
      if batch == [] {
        assert log + batch == log;
        return true;
      }
      var candidate := log + batch;
      var error := ValidateEventRecords(header, candidate);
      if error.Some? { return; }
      log := candidate;
      ok := true;
    }

    method Close()
      modifies this
      ensures closed && log == old(log)
    {
      closed := true;
    }
  }

  // ----- well shaped records -----

  /** What the records of each type must be. */
  predicate WellShaped(header: Header, e: Event) {
    && e.imp in header.imps && !e.kind.OtherType? && (e.kind.ThroughputReport? ==> header.version >= 2)
    && (if e.kind.ThroughputReport? then e.source.ThroughputSource? else e.source.TroubleSource?)
    && match e.subject
       case ImpSubject(imp) => imp == e.imp && (e.kind.ImpReport? || e.kind.ThroughputReport?) && e.state.Received?
       case HostSubject(imp, host) =>
         imp == e.imp && e.kind.HostState? && 0 <= host <= 3 && (e.state.Up? || e.state.Down?)
       case LineSubject(imp, line) =>
         imp == e.imp && e.kind.LineState? && 1 <= line <= 5 && !e.state.Received? && !e.state.OtherState?
       case OtherSubject(_) => false
  }

  lemma ShapeMeans(header: Header, e: Event)
    ensures ShapeError(header, e).None? <==> WellShaped(header, e)
  {
  }
}
