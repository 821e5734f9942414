/**
 The formal journey over IMPs 62 and 6 (ncc/pdp11_its_journey.py), whose two last boundaries
 are proved, if at all, by the traces of the guests themselves.
 */
module DirectJourney {
  import opened Wrappers
  import opened H316Trace
  import opened JourneyRoute
  import opened Journey
  import opened JourneyEvidence
  import Ka10Trace
  import Imp11aTrace
  import LeaderConversion

  const JOURNEY := "journey:network-unix-telnet-open"
  const ROUTE := "route:host176-to-host106"
  const COMPONENTS: seq<string> := ["host:176", "imp:62", "imp:6", "host:106"]
  const HOST_106 := 0x46
  const HOST_176 := 0x7E

  datatype Traces = Traces(imp62: seq<Transfer>, imp6: seq<Transfer>)

  datatype LegPath = LegPath(originHi: Transfer, originMi: Transfer, destinationMi: Transfer, destinationHi: Transfer)

  /** A control message for `host`: an open request, or any control message with data. */
  function IsControl(t: Transfer, host: nat, open: bool): Result<bool, Failure> {
    if !IsHi(t, Received) || |t.words| < 5 then Ok(false)
    else if !Narrow(t.words) then Err(WordTooWide)
    else
      var d := DecodeLeader(t.words);
      Ok(d.messageClass.Regular? && d.fields[TYPE] == Some(0) && d.fields[HOST] == Some(host)
         && d.fields[LINK] == Some(0)
         && d.fields[BYTE_SIZE] == Some(8)
         && if open then d.fields[OPCODE] == Some(1) else d.fields[BYTE_COUNT].Some? && d.fields[BYTE_COUNT].value > 0)
  }

  function FirstOpen(transfers: seq<Transfer>): Result<Option<Transfer>, Failure> {
    if transfers == [] then Ok(None)
    else
      match IsControl(transfers[0], HOST_106, true)
      case Err(e) => Err(e)
      case Ok(true) => Ok(Some(transfers[0]))
      case Ok(false) => FirstOpen(transfers[1..])
  }

  /** One message followed over one modem hop. */
  function Hop(hi: Transfer, origin: seq<Transfer>, destination: seq<Transfer>, outLine: nat, atLine: nat, host: nat)
    : Result<Option<LegPath>, Failure>
    requires |hi.words| >= 2 && Narrow(hi.words)
  {
    var originMi := FirstCarrier(origin, hi.sequence, outLine, hi.words);
    if originMi.None? then Ok(None)
    else
      var destinationMi := FirstEqual(destination, atLine, originMi.value.words);
      if destinationMi.None? then Ok(None)
      else
        match FirstDelivery(destination, destinationMi.value.sequence, ExpectationFor(hi.words))
        case Err(e) => Err(e)
        case Ok(None) => Ok(None)
        case Ok(Some(destinationHi)) =>
          DeliveredUnchanged(destinationHi, hi.words);
          if DecodeLeader(destinationHi.words).fields[HOST] != Some(host) then Ok(None)
          else Ok(Some(LegPath(hi, originMi.value, destinationMi.value, destinationHi)))
  }

  function RequestPath(traces: Traces, line62: nat, line6: nat): Result<LegPath, Failure> {
    match FirstOpen(traces.imp62)
    case Err(e) => Err(e)
    case Ok(None) => Err(NoRequest)
    case Ok(Some(hi)) =>
      FirstOpenLaw(traces.imp62);
      match Hop(hi, traces.imp62, traces.imp6, line62, line6, HOST_176)
      case Err(e) => Err(e)
      case Ok(None) => Err(NoRequest)
      case Ok(Some(path)) => Ok(path)
  }

  function ReplyPath(candidates: seq<Transfer>, traces: Traces, line62: nat, line6: nat, after: nat)
    : Result<LegPath, Failure> {
    if candidates == [] then Err(NoReply)
    else
      var (hi, rest) := (candidates[0], candidates[1..]);
      if hi.sequence <= after then ReplyPath(rest, traces, line62, line6, after)
      else
        match IsControl(hi, HOST_176, false)
        case Err(e) => Err(e)
        case Ok(false) => ReplyPath(rest, traces, line62, line6, after)
        case Ok(true) =>
          match Hop(hi, traces.imp6, traces.imp62, line6, line62, HOST_106)
          case Err(e) => Err(e)
          case Ok(Some(path)) => Ok(path)
          case Ok(None) => ReplyPath(rest, traces, line62, line6, after)
  }

  predicate Followed(p: LegPath, origin: seq<Transfer>, destination: seq<Transfer>, host: nat) {
    && p.originMi in origin && p.destinationMi in destination && p.destinationHi in destination
    && p.originHi.sequence < p.originMi.sequence && p.destinationMi.sequence < p.destinationHi.sequence
    && p.originMi.words == p.destinationMi.words && Contains(p.originMi.words, p.originHi.words)
    && Delivered(p, host) && Acted(p)
  }

  predicate Delivered(p: LegPath, host: nat) {
    && |p.originHi.words| >= 2 && Narrow(p.originHi.words) && Narrow(p.destinationHi.words)
    && |p.destinationHi.words| == |p.originHi.words| && p.destinationHi.words[1..] == p.originHi.words[1..]
    && p.destinationHi.words[0] / 0x100 == p.originHi.words[0] / 0x100 && p.destinationHi.words[0] % 0x100 == host
    && Comparison(ExpectationFor(p.originHi.words), DecodeLeader(p.destinationHi.words)) == Observed
    && BodyFingerprint(p.destinationHi.words) == BodyFingerprint(p.originHi.words)
  }

  predicate Acted(p: LegPath) {
    && IsHi(p.originHi, Received) && p.originMi.complete && p.originMi.action.Sent?
    && p.destinationMi.complete && p.destinationMi.action.Received? && p.destinationHi.complete
    && p.destinationHi.action.Sent?
  }

  lemma {:induction false} FirstOpenLaw(transfers: seq<Transfer>)
    ensures FirstOpen(transfers).Ok? && FirstOpen(transfers).value.Some? ==>
      FirstOpen(transfers).value.value in transfers
        && IsControl(FirstOpen(transfers).value.value, HOST_106, true) == Ok(true)
  {
    hide IsControl;
    if transfers != [] {
      FirstOpenLaw(transfers[1..]);
    }
  }

  lemma HopFollows(hi: Transfer, origin: seq<Transfer>, destination: seq<Transfer>, outLine: nat, atLine: nat,
                   host: nat)
    requires IsHi(hi, Received) && Narrow(hi.words)
    requires var r := Hop(hi, origin, destination, outLine, atLine, host); r.Ok? && r.value.Some?
    ensures var p := Hop(hi, origin, destination, outLine, atLine, host).value.value;
      p.originHi == hi && Followed(p, origin, destination, host)
  {
    hide Comparison, FirstCarrier, FirstEqual, FirstDelivery, Contains, Matches;
    var p := Hop(hi, origin, destination, outLine, atLine, host).value.value;
    DeliveredUnchanged(p.destinationHi, hi.words);
  }

  lemma RequestFollowed(traces: Traces, line62: nat, line6: nat)
    requires RequestPath(traces, line62, line6).Ok?
    ensures Followed(RequestPath(traces, line62, line6).value, traces.imp62, traces.imp6, HOST_176)
  {
    FirstOpenLaw(traces.imp62);
    hide Hop, Followed;
    HopFollows(FirstOpen(traces.imp62).value.value, traces.imp62, traces.imp6, line62, line6, HOST_176);
  }

  lemma {:induction false} ReplyFollowed(candidates: seq<Transfer>, traces: Traces, line62: nat, line6: nat, after: nat)
    requires ReplyPath(candidates, traces, line62, line6, after).Ok?
    ensures var p := ReplyPath(candidates, traces, line62, line6, after).value;
      p.originHi.sequence > after && Followed(p, traces.imp6, traces.imp62, HOST_106)
  {
    hide Hop, Followed;
    var hi := candidates[0];
    if hi.sequence > after && IsControl(hi, HOST_176, false) == Ok(true)
       && Hop(hi, traces.imp6, traces.imp62, line6, line62, HOST_106).value.Some? {
      HopFollows(hi, traces.imp6, traces.imp62, line6, line62, HOST_106);
    } else {
      ReplyFollowed(candidates[1..], traces, line62, line6, after);
    }
  }

  predicate Searching(e: Failure) { e.WordTooWide? || e.NoRequest? || e.NoReply? }

  lemma {:induction false} ReplyErrors(candidates: seq<Transfer>, traces: Traces, line62: nat, line6: nat, after: nat)
    ensures ReplyPath(candidates, traces, line62, line6, after).Err? ==>
      Searching(ReplyPath(candidates, traces, line62, line6, after).error)
  {
    hide DecodeLeader, FirstCarrier, FirstEqual, ExpectationFor, IsHi;
    if candidates != [] {
      ReplyErrors(candidates[1..], traces, line62, line6, after);
      HopErrors(candidates[0], traces.imp6, traces.imp62, line6, line62, HOST_106);
    }
  }

  lemma {:induction false} OpenErrors(transfers: seq<Transfer>)
    ensures FirstOpen(transfers).Err? ==> FirstOpen(transfers).error.WordTooWide?
  {
    hide DecodeLeader;
    if transfers != [] {
      OpenErrors(transfers[1..]);
    }
  }

  lemma RequestErrors(traces: Traces, line62: nat, line6: nat)
    ensures RequestPath(traces, line62, line6).Err? ==> Searching(RequestPath(traces, line62, line6).error)
  {
    OpenErrors(traces.imp62);
    FirstOpenLaw(traces.imp62);
    if FirstOpen(traces.imp62).Ok? && FirstOpen(traces.imp62).value.Some? {
      HopErrors(FirstOpen(traces.imp62).value.value, traces.imp62, traces.imp6, line62, line6, HOST_176);
    }
    hide FirstOpen, Hop;
  }

  lemma HopErrors(hi: Transfer, origin: seq<Transfer>, destination: seq<Transfer>, outLine: nat, atLine: nat, host: nat)
    ensures |hi.words| >= 2 && Narrow(hi.words) ==>
      var r := Hop(hi, origin, destination, outLine, atLine, host);
      r.Err? ==> r.error.WordTooWide?
  {
    if |hi.words| >= 2 && Narrow(hi.words) {
      hide DecodeLeader, FirstCarrier, FirstEqual, FirstDelivery, ExpectationFor;
      var originMi := FirstCarrier(origin, hi.sequence, outLine, hi.words);
      var destinationMi := if originMi.Some? then FirstEqual(destination, atLine, originMi.value.words) else None;
      if destinationMi.Some? {
        FirstDeliveryErrors(destination, destinationMi.value.sequence, ExpectationFor(hi.words));
      }
    }
  }

  // ----- guest evidence -----

  /** A consumed KA10 message in the short form, if it has one. */
  function Normalized(m: Ka10Trace.InputMessage): Option<seq<nat>>
    requires Ka10Trace.Proven(m)
  {
    match LeaderConversion.Converted(LeaderConversion.Words(m.content), m.bits)
    case Err(_) => None
    case Ok(words) => Some(words)
  }

  function WireWords(words: seq<Imp11aTrace.InputWord>): seq<nat> {
    if words == [] then [] else WireWords(words[..|words| - 1]) + [words[|words| - 1].wire]
  }

  predicate Ka10Proven(messages: seq<Ka10Trace.InputMessage>) {
    forall i :: 0 <= i < |messages| ==> Ka10Trace.Proven(messages[i])
  }

  /** The KA10 messages whose short form is exactly what IMP 6 delivered. */
  function Ka10Candidates(messages: seq<Ka10Trace.InputMessage>, words: seq<nat>): (found: seq<Ka10Trace.InputMessage>)
    requires Ka10Proven(messages)
    ensures forall i :: 0 <= i < |found| ==> Ka10Trace.Proven(found[i]) && Normalized(found[i]) == Some(words)
  {
    if messages == [] then []
    else
      var m := messages[|messages| - 1];
      Ka10Candidates(messages[..|messages| - 1], words) + if Normalized(m) == Some(words) then [m] else []
  }

  function Imp11aCandidates(messages: seq<Imp11aTrace.InputMessage>, words: seq<nat>)
    : (found: seq<Imp11aTrace.InputMessage>)
    ensures forall i :: 0 <= i < |found| ==> WireWords(found[i].words) == words
  {
    if messages == [] then []
    else
      var m := messages[|messages| - 1];
      Imp11aCandidates(messages[..|messages| - 1], words) + if WireWords(m.words) == words then [m] else []
  }

  /** The candidates, appended to a list one message at a time. */
  method CollectKa10(messages: seq<Ka10Trace.InputMessage>, words: seq<nat>)
    returns (candidates: seq<Ka10Trace.InputMessage>)
    requires Ka10Proven(messages)
    ensures candidates == Ka10Candidates(messages, words)
  {
    candidates := [];
    for i := 0 to |messages|
      invariant candidates == Ka10Candidates(messages[..i], words)
    {
      hide Ka10Trace.Proven;
      assert messages[..i + 1][..i] == messages[..i];
      var m := messages[i];
      assert Ka10Trace.Proven(m) && m.bits == 8 * |m.content| by { ProvenLength(m); }
      var normalized := LeaderConversion.NoscWords(m);
      if normalized.Err? { continue; }
      if normalized.value == words {
        candidates := candidates + [m];
      }
    }
    assert messages[..|messages|] == messages;
  }

  lemma ProvenLength(m: Ka10Trace.InputMessage)
    requires Ka10Trace.Proven(m)
    ensures m.bits == 8 * |m.content| && m.words != []
  {
  }

  datatype Guests = Guests(ka10: Option<seq<Ka10Trace.InputMessage>>, imp11a: Option<seq<Imp11aTrace.InputMessage>>)

  predicate GuestsProven(g: Guests) {
    && (g.ka10.Some? ==> Ka10Proven(g.ka10.value))
    && (g.imp11a.Some? ==> forall i :: 0 <= i < |g.imp11a.value| ==> Imp11aTrace.Proven(g.imp11a.value[i]))
  }

  datatype Revisions = Revisions(h316: Option<string>, ka10: Option<string>, imp11a: Option<string>)

  // ----- observations -----

  predicate Readable(p: LegPath) {
    && |p.originHi.words| >= 2 && Narrow(p.originHi.words) && |p.destinationHi.words| >= 2
    && Narrow(p.destinationHi.words)
  }

  function LegObservations(bs: seq<Boundary>, p: LegPath, near: string, far: string, revision: Option<string>)
    : (observations: seq<Observation>)
    requires |bs| == 6 && Readable(p)
    ensures |observations| == 5
  {
    var (sent, arrived) := (DecodeLeader(p.originHi.words), DecodeLeader(p.destinationHi.words));
    var e := ExpectationFor(p.originHi.words);
    [PeerEgress(JOURNEY, p.originHi, bs[0], sent, e, near, revision),
     Direct(JOURNEY, p.originHi, bs[1], sent, e, near, revision),
     Direct(JOURNEY, p.originMi, bs[2], sent, e, near, revision),
     Direct(JOURNEY, p.destinationMi, bs[3], arrived, e, far, revision),
     Direct(JOURNEY, p.destinationHi, bs[4], arrived, e, far, revision)]
  }

  predicate LegAdapts(bs: seq<Boundary>, p: LegPath)
    requires |bs| == 6
  {
    && PeerAdapts(p.originHi, bs[0]) && Adapts(p.originHi, bs[1]) && Adapts(p.originMi, bs[2])
    && Adapts(p.destinationMi, bs[3]) && Adapts(p.destinationHi, bs[4])
  }

  /** What a guest took in, at the last boundary of a leg; its words are those delivered to it. */
  datatype Intake = Intake(sequence: nat, tick: nat, words: seq<nat>, source: string, kind: string,
                           revision: Option<string>)

  predicate IntakeReadable(i: Intake) { |i.words| >= 2 && Narrow(i.words) }

  function IntakeObservation(i: Intake, b: Boundary): Observation
    requires IntakeReadable(i)
  {
    Observation(ObservationId(b), JOURNEY, KeyOf(b), i.sequence, DecodeLeader(i.words), BodyFingerprint(i.words),
                Provenance(i.source, i.kind, i.revision), Some(i.tick))
  }

  /** One leg's observations, with the guest's own if there is one. */
  function WholeLeg(bs: seq<Boundary>, p: LegPath, near: string, far: string, revision: Option<string>,
                    intake: Option<Intake>)
    : (observations: seq<Observation>)
    requires |bs| == 6 && Readable(p) && (intake.Some? ==> IntakeReadable(intake.value))
    ensures |observations| == if intake.Some? then 6 else 5
  {
    LegObservations(bs, p, near, far, revision) + if intake.Some? then [IntakeObservation(intake.value, bs[5])] else []
  }

  /** The guest's fingerprint is compared with the leg's once more. */
  predicate FingerprintKept(p: LegPath, intake: Option<Intake>)
    requires Readable(p) && (intake.Some? ==> IntakeReadable(intake.value))
  {
    intake.Some? ==> BodyFingerprint(intake.value.words) == ExpectationFor(p.originHi.words).fingerprint
  }

  datatype Extraction = Extraction(expected: Expected, request: LegPath, reply: LegPath, observations: seq<Observation>,
                                   diagnosis: Diagnosis)

  /** The single matching message of each guest trace that was supplied. */
  function RequestIntake(g: Guests, words: seq<nat>, revision: Option<string>): Result<Option<Intake>, Failure>
    requires GuestsProven(g)
  {
    if g.ka10.None? then Ok(None)
    else
      var found := Ka10Candidates(g.ka10.value, words);
      if |found| != 1 then Err(NoGuestMessage)
      else
        ProvenLength(found[0]);
        Ok(Some(Intake(found[0].sequence, found[0].words[|found[0].words| - 1].consumeTick, words, "source:host106-imp",
                       "ka10-imp-trace", revision)))
  }

  function ReplyIntake(g: Guests, words: seq<nat>, revision: Option<string>): Result<Option<Intake>, Failure> {
    if g.imp11a.None? then Ok(None)
    else
      var found := Imp11aCandidates(g.imp11a.value, words);
      if |found| != 1 then Err(NoGuestMessage)
      else Ok(Some(Intake(found[0].sequence, found[0].completeTick, words, "source:host176-imp", "pdp11-imp11a-trace",
                          revision)))
  }

  /** extract_pdp11_its_journey, with the traces already parsed and the modem lines looked up. */
  function Extract(t: Topology, traces: Traces, line62: nat, line6: nat, g: Guests, revisions: Revisions)
    : Result<Extraction, Failure>
    requires Valid(t) && GuestsProven(g)
  {
    if ROUTE !in t.routes || t.routes[ROUTE] != COMPONENTS then Err(Failure.NoRoute)
    else
      match RequestPath(traces, line62, line6)
      case Err(e) => Err(e)
      case Ok(request) =>
        RequestFollowed(traces, line62, line6);
        match ReplyPath(traces.imp6, traces, line62, line6, request.destinationHi.sequence)
        case Err(e) => Err(e)
        case Ok(reply) =>
          ReplyFollowed(traces.imp6, traces, line62, line6, request.destinationHi.sequence);
          match RequestIntake(g, request.destinationHi.words, revisions.ka10)
          case Err(e) => Err(e)
          case Ok(consumed) =>
            match ReplyIntake(g, reply.destinationHi.words, revisions.imp11a)
            case Err(e) => Err(e)
            case Ok(stored) =>
              match RouteBoundaries(t, ROUTE)
              case Err(e) => Err(BadRoute(e))
              case Ok(bs) =>
                var expected := Expected(JOURNEY, t.id, ROUTE, ExpectationFor(request.originHi.words),
                                         ExpectationFor(reply.originHi.words), bs);
                Concluded(t, expected, request, reply, consumed, stored, revisions.h316)
  }

  function Concluded(t: Topology, expected: Expected, request: LegPath, reply: LegPath, consumed: Option<Intake>,
                     stored: Option<Intake>, revision: Option<string>): Result<Extraction, Failure>
    requires Valid(t) && Readable(request) && Readable(reply)
    requires (consumed.Some? ==> IntakeReadable(consumed.value)) && (stored.Some? ==> IntakeReadable(stored.value))
  {
    var (ahead, back) := (OfLeg(expected.boundaries, Request), OfLeg(expected.boundaries, Reply));
    if |ahead| != 6 || |back| != 6 then Err(WrongBoundaries)
    else if !LegAdapts(ahead, request) || !LegAdapts(back, reply) then Err(CannotAdapt)
    else if !FingerprintKept(request, consumed) || !FingerprintKept(reply, stored) then Err(FingerprintChanged)
    else
      var observations := WholeLeg(ahead, request, "imp62", "imp6", revision, consumed)
        + WholeLeg(back, reply, "imp6", "imp62", revision, stored);
      match Diagnose(t, expected, observations)
      case Err(e) => Err(Rejected(e))
      case Ok(d) =>
        if consumed.Some? && stored.Some? then
          if d.state != Complete || d.first != None then Err(NotComplete)
          else Ok(Extraction(expected, request, reply, observations, d))
        else if !StoppedAt(d, if consumed.Some? then Reply else Request,
                           if consumed.Some? then "host:176" else "host:106")
          then Err(NotAtExpectedBoundary)
        else Ok(Extraction(expected, request, reply, observations, d))
  }

  /** The journey stopped at the boundary into a guest that no trace proves. */
  predicate StoppedAt(d: Diagnosis, leg: Leg, component: string) {
    && d.state.MissingBoundary? && d.first.Some?
    && d.first.value.leg == leg && d.first.value.component == component && d.first.value.direction.Ingress?
  }

  // ----- the guards -----

  /** The boundaries covered, with or without each guest's own evidence. */
  function Places(consumed: bool, stored: bool): (places: seq<nat>)
    ensures |places| == 10 + (if consumed then 1 else 0) + if stored then 1 else 0
  {
    [0, 1, 2, 3, 4] + (if consumed then [5] else []) + [6, 7, 8, 9, 10] + if stored then [11] else []
  }

  /** The first boundary that is not covered; twelve if all are. */
  function Gap(consumed: bool, stored: bool): nat { if !consumed then 5 else if !stored then 11 else 12 }

  lemma PlacesLaw(consumed: bool, stored: bool)
    ensures var places := Places(consumed, stored);
      && (forall i :: 0 <= i < |places| ==> places[i] < 12)
      && (forall i, j :: 0 <= i < j < |places| ==> places[i] != places[j])
      && (forall j :: 0 <= j < Gap(consumed, stored) ==> j in places) && Gap(consumed, stored) !in places
  {
    var places := Places(consumed, stored);
    var n := if consumed then 6 else 5;
    assert forall i :: 0 <= i < n ==> places[i] == i;
    assert forall i :: n <= i < |places| ==> places[i] == i - n + 6;
    forall j | 0 <= j < Gap(consumed, stored) ensures j in places {
      if j < n {
        assert places[j] == j;
      } else {
        assert places[j - 6 + n] == j;
      }
    }
  }

  /** The guest took in exactly what was delivered to it. */
  predicate TookDelivered(intake: Option<Intake>, p: LegPath) {
    intake.Some? ==> intake.value.words == p.destinationHi.words
  }

  lemma LegAsExpected(expected: Expected, bs: seq<Boundary>, p: LegPath, near: string, far: string,
                      revision: Option<string>, intake: Option<Intake>, host: nat, i: nat)
    requires |bs| == 6 && Delivered(p, host) && Readable(p) && TookDelivered(intake, p)
    requires intake.Some? ==> IntakeReadable(intake.value)
    requires i < |WholeLeg(bs, p, near, far, revision, intake)|
    requires forall j :: 0 <= j < 6 ==> ExpectationOf(expected, bs[j].leg) == ExpectationFor(p.originHi.words)
    ensures AsExpected(expected, WholeLeg(bs, p, near, far, revision, intake)[i], bs[i])
  {
    hide Comparison, KeyOf, ExpectationFor, DecodeLeader;
    ExpectedOfItself(p.originHi.words);
  }

  lemma LegsCover(expected: Expected, request: LegPath, reply: LegPath, consumed: Option<Intake>,
                  stored: Option<Intake>,
                  revision: Option<string>)
    requires Legs(expected.boundaries, 6) && Delivered(request, HOST_176) && Delivered(reply, HOST_106)
    requires Readable(request) && Readable(reply) && TookDelivered(consumed, request) && TookDelivered(stored, reply)
    requires (consumed.Some? ==> IntakeReadable(consumed.value)) && (stored.Some? ==> IntakeReadable(stored.value))
    requires expected.request == ExpectationFor(request.originHi.words)
      && expected.reply == ExpectationFor(reply.originHi.words)
    ensures var bs := expected.boundaries;
      Covering(expected, WholeLeg(bs[..6], request, "imp62", "imp6", revision, consumed)
        + WholeLeg(bs[6..], reply, "imp6", "imp62", revision, stored), Places(consumed.Some?, stored.Some?))
  {
    hide WholeLeg, AsExpected, DistinctKeys, OfLeg, Alternates, ExpectationFor, Delivered, Readable, IntakeReadable;
    var (a, b) := (expected.boundaries[..6], expected.boundaries[6..]);
    var x := WholeLeg(a, request, "imp62", "imp6", revision, consumed);
    var y := WholeLeg(b, reply, "imp6", "imp62", revision, stored);
    forall i | 0 <= i < |x| ensures AsExpected(expected, x[i], a[i]) {
      LegAsExpected(expected, a, request, "imp62", "imp6", revision, consumed, HOST_176, i);
    }
    forall i | 0 <= i < |y| ensures AsExpected(expected, y[i], b[i]) {
      LegAsExpected(expected, b, reply, "imp6", "imp62", revision, stored, HOST_106, i);
    }
    BothLegs(expected, x, y, consumed.Some?, stored.Some?);
  }

  lemma BothLegs(expected: Expected, x: seq<Observation>, y: seq<Observation>, consumed: bool, stored: bool)
    requires |expected.boundaries| == 12
    requires |x| == (if consumed then 6 else 5) && |y| == if stored then 6 else 5
    requires forall i :: 0 <= i < |x| ==> AsExpected(expected, x[i], expected.boundaries[..6][i])
    requires forall i :: 0 <= i < |y| ==> AsExpected(expected, y[i], expected.boundaries[6..][i])
    ensures Covering(expected, x + y, Places(consumed, stored))
  {
    hide AsExpected;
    PlacesLaw(consumed, stored);
    var (places, n) := (Places(consumed, stored), |x|);
    forall i | 0 <= i < |x + y| ensures AsExpected(expected, (x + y)[i], expected.boundaries[places[i]]) {
      if i < n {
        assert places[i] == i && AsExpected(expected, x[i], expected.boundaries[..6][i]);
        assert expected.boundaries[..6][i] == expected.boundaries[places[i]];
      } else {
        assert places[i] == i - n + 6 && AsExpected(expected, y[i - n], expected.boundaries[6..][i - n]);
        assert expected.boundaries[6..][i - n] == expected.boundaries[places[i]];
      }
    }
  }

  lemma LegsAdapt(bs: seq<Boundary>, request: LegPath, reply: LegPath)
    requires Legs(bs, 6) && Acted(request) && Acted(reply)
    ensures LegAdapts(bs[..6], request) && LegAdapts(bs[6..], reply)
  {
    hide DistinctKeys, OfLeg;
    LegAdaptsAlways(bs[..6], request);
    LegAdaptsAlways(bs[6..], reply);
  }

  lemma LegAdaptsAlways(bs: seq<Boundary>, p: LegPath)
    requires |bs| == 6 && Alternates(bs) && Acted(p)
    ensures LegAdapts(bs, p)
  {
  }

  lemma LegsFacts(bs: seq<Boundary>)
    requires Legs(bs, 6)
    ensures |bs| == 12 && DistinctKeys(bs) && OfLeg(bs, Request) == bs[..6] && OfLeg(bs, Reply) == bs[6..]
    ensures bs[5].leg == Request && bs[11].leg == Reply
  {
    hide DistinctKeys, OfLeg, Alternates;
    assert bs[..6][5].leg == Request && bs[6..][5].leg == Reply;
  }

  /** The two ways a finished extraction can end. */
  predicate AsForced(d: Diagnosis, consumed: bool, stored: bool) {
    if consumed && stored then d.state == Complete && d.first == None
    else StoppedAt(d, if consumed then Reply else Request, if consumed then "host:176" else "host:106")
  }

  lemma ConcludedIsForced(t: Topology, expected: Expected, request: LegPath, reply: LegPath, consumed: Option<Intake>,
                          stored: Option<Intake>, revision: Option<string>)
    requires Valid(t) && Legs(expected.boundaries, 6) && Readable(request) && Readable(reply)
    requires var bs := expected.boundaries;
      bs[5].component == "host:106" && bs[5].direction.Ingress? && bs[11].component == "host:176"
        && bs[11].direction.Ingress?
    requires Delivered(request, HOST_176) && Acted(request) && Delivered(reply, HOST_106) && Acted(reply)
    requires TookDelivered(consumed, request) && TookDelivered(stored, reply)
    requires (consumed.Some? ==> IntakeReadable(consumed.value)) && (stored.Some? ==> IntakeReadable(stored.value))
    requires expected.request == ExpectationFor(request.originHi.words)
      && expected.reply == ExpectationFor(reply.originHi.words)
    ensures match Concluded(t, expected, request, reply, consumed, stored, revision)
      case Ok(x) => x.request == request && x.reply == reply && AsForced(x.diagnosis, consumed.Some?, stored.Some?)
      case Err(e) => e.Rejected?
  {
    hide WholeLeg, Covering, DistinctKeys, Acted, Delivered, Diagnosed, Check, Placed, RouteBoundaries, LegAdapts, Legs,
      ExpectationFor, OfLeg, Readable, IntakeReadable, Places, FingerprintKept;
    var bs := expected.boundaries;
    LegsFacts(bs);
    LegsAdapt(bs, request, reply);
    FingerprintsKept(request, HOST_176, consumed);
    FingerprintsKept(reply, HOST_106, stored);
    LegsCover(expected, request, reply, consumed, stored, revision);
    PlacesLaw(consumed.Some?, stored.Some?);
    var observations := WholeLeg(bs[..6], request, "imp62", "imp6", revision, consumed)
      + WholeLeg(bs[6..], reply, "imp6", "imp62", revision, stored);
    ForcedDiagnosis(expected, observations, Places(consumed.Some?, stored.Some?), Gap(consumed.Some?, stored.Some?));
  }

  lemma FingerprintsKept(p: LegPath, host: nat, intake: Option<Intake>)
    requires Delivered(p, host) && Readable(p) && TookDelivered(intake, p)
      && (intake.Some? ==> IntakeReadable(intake.value))
    ensures FingerprintKept(p, intake)
  {
    hide Comparison, DecodeLeader, BodyFingerprint;
  }

  /** Whenever extraction returns, both messages were followed unchanged, and the diagnosis is
      the one the supplied traces force: complete with both guests' evidence, otherwise stopped
      at the first guest ingress without it. The boundary count, the adapter, the fingerprints
      and the two final guards never fail. */
  lemma ExtractionIsForced(t: Topology, traces: Traces, line62: nat, line6: nat, g: Guests, revisions: Revisions)
    requires Valid(t) && GuestsProven(g)
    ensures match Extract(t, traces, line62, line6, g, revisions)
      case Ok(x) =>
        && Followed(x.request, traces.imp62, traces.imp6, HOST_176)
        && Followed(x.reply, traces.imp6, traces.imp62, HOST_106)
        && x.reply.originHi.sequence > x.request.destinationHi.sequence
        && AsForced(x.diagnosis, g.ka10.Some?, g.imp11a.Some?)
      case Err(e) =>
        !e.WrongBoundaries? && !e.CannotAdapt? && !e.FingerprintChanged? && !e.NotAtExpectedBoundary? && !e.NotComplete?
  {
    hide Concluded, RequestPath, ReplyPath, RouteBoundaries, Legs, ExpectationFor, GuestsProven, Ka10Candidates,
      Imp11aCandidates;
    RequestErrors(traces, line62, line6);
    if ROUTE in t.routes && t.routes[ROUTE] == COMPONENTS && RequestPath(traces, line62, line6).Ok? {
      var request := RequestPath(traces, line62, line6).value;
      RequestFollowed(traces, line62, line6);
      var after := request.destinationHi.sequence;
      ReplyErrors(traces.imp6, traces, line62, line6, after);
      if ReplyPath(traces.imp6, traces, line62, line6, after).Ok? {
        var reply := ReplyPath(traces.imp6, traces, line62, line6, after).value;
        ReplyFollowed(traces.imp6, traces, line62, line6, after);
        IntakesConclude(t, traces, request, reply, g, revisions);
      }
    }
  }

  lemma IntakesConclude(t: Topology, traces: Traces, request: LegPath, reply: LegPath, g: Guests, revisions: Revisions)
    requires Valid(t) && GuestsProven(g) && ROUTE in t.routes && t.routes[ROUTE] == COMPONENTS
    requires Followed(request, traces.imp62, traces.imp6, HOST_176)
      && Followed(reply, traces.imp6, traces.imp62, HOST_106)
    ensures var (consumed, stored) := (RequestIntake(g, request.destinationHi.words, revisions.ka10),
                                       ReplyIntake(g, reply.destinationHi.words, revisions.imp11a));
      && (consumed.Err? ==> consumed.error.NoGuestMessage?) && (stored.Err? ==> stored.error.NoGuestMessage?)
      && (consumed.Ok? && consumed.value.Some? ==> IntakeReadable(consumed.value.value))
      && (stored.Ok? && stored.value.Some? ==> IntakeReadable(stored.value.value))
      && (consumed.Ok? && stored.Ok? && RouteBoundaries(t, ROUTE).Ok? ==>
        var expected := Expected(JOURNEY, t.id, ROUTE, ExpectationFor(request.originHi.words),
                                 ExpectationFor(reply.originHi.words), RouteBoundaries(t, ROUTE).value);
        match Concluded(t, expected, request, reply, consumed.value, stored.value, revisions.h316)
        case Ok(x) => x.request == request && x.reply == reply && AsForced(x.diagnosis, g.ka10.Some?, g.imp11a.Some?)
        case Err(e) => e.Rejected?)
  {
    hide Concluded, RouteBoundaries, Legs, ExpectationFor, GuestsProven, Ka10Candidates, Imp11aCandidates, Comparison,
      AsForced;
    var consumed := RequestIntake(g, request.destinationHi.words, revisions.ka10);
    var stored := ReplyIntake(g, reply.destinationHi.words, revisions.imp11a);
    if consumed.Ok? && stored.Ok? && RouteBoundaries(t, ROUTE).Ok? {
      RouteLegs(t, ROUTE);
      var bs := RouteBoundaries(t, ROUTE).value;
      assert |COMPONENTS| == 4 && COMPONENTS[3] == "host:106" && COMPONENTS[0] == "host:176";
      LegsFacts(bs);
      assert bs[6..][5] == bs[11];
      var expected := Expected(JOURNEY, t.id, ROUTE, ExpectationFor(request.originHi.words),
                               ExpectationFor(reply.originHi.words), bs);
      ConcludedIsForced(t, expected, request, reply, consumed.value, stored.value, revisions.h316);
    }
  }
}
