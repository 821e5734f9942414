/**
 The post-cut journey over IMPs 62, 7 and 6 (ncc/pdp11_its_failover_journey.py): one request
 and one reply are followed hop by hop through three traces, and handed to the reducer.
 */
module FailoverJourney {
  import opened Wrappers
  import opened H316Trace
  import opened JourneyRoute
  import opened Journey
  import opened JourneyEvidence

  const JOURNEY := "journey:network-unix-telnet-post-cut"
  const ROUTE := "route:host176-to-host106-alternate"
  const COMPONENTS: seq<string> := ["host:176", "imp:62", "imp:7", "imp:6", "host:106"]
  const HOST_106 := 0x46
  const HOST_176 := 0x7E

  /** The modem lines of the two cables, near end and far end. */
  datatype Lines = Lines(from62: nat, at7: nat, from7: nat, at6: nat)

  datatype Traces = Traces(imp62: seq<Transfer>, imp7: seq<Transfer>, imp6: seq<Transfer>)

  datatype LegPath = LegPath(originHi: Transfer, firstOut: Transfer, transitIn: Transfer, transitOut: Transfer,
                             destinationIn: Transfer, destinationHi: Transfer)

  /** A complete user message of at least five words for `host`, on a link, in octets. */
  function IsApplicationData(t: Transfer, host: nat): Result<bool, Failure> {
    if !IsHi(t, Received) || |t.words| < 5 then Ok(false)
    else if !Narrow(t.words) then Err(WordTooWide)
    else
      var d := DecodeLeader(t.words);
      Ok(d.messageClass.Regular? && d.fields[TYPE] == Some(0) && d.fields[HOST] == Some(host)
         && d.fields[LINK].Some? && d.fields[LINK].value > 0 && d.fields[BYTE_SIZE] == Some(8)
         && d.fields[BYTE_COUNT].Some? && d.fields[BYTE_COUNT].value > 0)
  }

  /** One message followed out of its IMP, through the transit IMP and into its destination. */
  function ForwardPath(hi: Transfer, origin: seq<Transfer>, transit: seq<Transfer>, destination: seq<Transfer>,
                       outLine: nat, inLine: nat, onLine: nat, atLine: nat, host: nat): Result<Option<LegPath>, Failure>
    requires |hi.words| >= 2 && Narrow(hi.words)
  {
    var firstOut := FirstCarrier(origin, hi.sequence, outLine, hi.words);
    if firstOut.None? then Ok(None)
    else
      var transitIn := FirstEqual(transit, inLine, firstOut.value.words);
      if transitIn.None? then Ok(None)
      else
        var transitOut := FirstCarrier(transit, transitIn.value.sequence, onLine, hi.words);
        if transitOut.None? then Ok(None)
        else
          var destinationIn := FirstEqual(destination, atLine, transitOut.value.words);
          if destinationIn.None? then Ok(None)
          else
            match FirstDelivery(destination, destinationIn.value.sequence, ExpectationFor(hi.words))
            case Err(e) => Err(e)
            case Ok(None) => Ok(None)
            case Ok(Some(destinationHi)) =>
              DeliveredUnchanged(destinationHi, hi.words);
              if DecodeLeader(destinationHi.words).fields[HOST] != Some(host) then Ok(None)
              else Ok(Some(LegPath(hi, firstOut.value, transitIn.value, transitOut.value, destinationIn.value,
                                   destinationHi)))
  }

  /** What following a message proves: the same words on both sides of each modem hop, the host
      message inside every packet, and a delivery that differs from what was sent in the host
      octet alone, which names the other host. */
  predicate Followed(p: LegPath, origin: seq<Transfer>, transit: seq<Transfer>, destination: seq<Transfer>, host: nat) {
    && p.firstOut in origin && p.transitIn in transit && p.transitOut in transit
    && p.destinationIn in destination && p.destinationHi in destination
    && p.originHi.sequence < p.firstOut.sequence && p.transitIn.sequence < p.transitOut.sequence
    && p.destinationIn.sequence < p.destinationHi.sequence
    && p.firstOut.words == p.transitIn.words && p.transitOut.words == p.destinationIn.words
    && Contains(p.firstOut.words, p.originHi.words) && Contains(p.transitOut.words, p.originHi.words)
    && Delivered(p, host) && Acted(p)
  }

  predicate Delivered(p: LegPath, host: nat) {
    && |p.originHi.words| >= 2 && Narrow(p.originHi.words) && Narrow(p.destinationHi.words)
    && |p.destinationHi.words| == |p.originHi.words| && p.destinationHi.words[1..] == p.originHi.words[1..]
    && p.destinationHi.words[0] / 0x100 == p.originHi.words[0] / 0x100 && p.destinationHi.words[0] % 0x100 == host
    && Comparison(ExpectationFor(p.originHi.words), DecodeLeader(p.destinationHi.words)) == Observed
  }

  /** Every transfer is complete and acted as its place on the path demands. */
  predicate Acted(p: LegPath) {
    && p.firstOut.complete && p.firstOut.action.Sent? && p.transitIn.complete && p.transitIn.action.Received?
    && p.transitOut.complete && p.transitOut.action.Sent? && p.destinationIn.complete
    && p.destinationIn.action.Received?
    && p.destinationHi.complete && p.destinationHi.action.Sent?
  }

  lemma ForwardPathFollows(hi: Transfer, origin: seq<Transfer>, transit: seq<Transfer>, destination: seq<Transfer>,
                           outLine: nat, inLine: nat, onLine: nat, atLine: nat, host: nat)
    requires |hi.words| >= 2 && Narrow(hi.words)
    requires var r := ForwardPath(hi, origin, transit, destination, outLine, inLine, onLine, atLine, host);
      r.Ok? && r.value.Some?
    ensures var p := ForwardPath(hi, origin, transit, destination, outLine, inLine, onLine, atLine, host).value.value;
      p.originHi == hi && Followed(p, origin, transit, destination, host)
  {
    hide Comparison, FirstCarrier, FirstEqual, FirstDelivery, Contains, ExpectationFor, Matches;
    var p := ForwardPath(hi, origin, transit, destination, outLine, inLine, onLine, atLine, host).value.value;
    DeliveredUnchanged(p.destinationHi, hi.words);
  }

  /** The first application request that can be followed, of the transfers still to try. */
  function RequestPath(candidates: seq<Transfer>, traces: Traces, lines: Lines): Result<LegPath, Failure> {
    if candidates == [] then Err(NoRequest)
    else
      var hi := candidates[0];
      match IsApplicationData(hi, HOST_106)
      case Err(e) => Err(e)
      case Ok(false) => RequestPath(candidates[1..], traces, lines)
      case Ok(true) =>
        match ForwardPath(hi, traces.imp62, traces.imp7, traces.imp6, lines.from62, lines.at7, lines.from7, lines.at6,
                          HOST_176)
        case Err(e) => Err(e)
        case Ok(Some(path)) => Ok(path)
        case Ok(None) => RequestPath(candidates[1..], traces, lines)
  }

  /** The first reply on the request's link, after the request's delivery, that can be followed. */
  function ReplyPath(candidates: seq<Transfer>, traces: Traces, lines: Lines, after: nat, link: Option<nat>)
    : Result<LegPath, Failure>
  {
    if candidates == [] then Err(NoReply)
    else
      var (hi, rest) := (candidates[0], candidates[1..]);
      if hi.sequence <= after then ReplyPath(rest, traces, lines, after, link)
      else
        match IsApplicationData(hi, HOST_176)
        case Err(e) => Err(e)
        case Ok(false) => ReplyPath(rest, traces, lines, after, link)
        case Ok(true) =>
          if DecodeLeader(hi.words).fields[LINK] != link then ReplyPath(rest, traces, lines, after, link)
          else
            match ForwardPath(hi, traces.imp6, traces.imp7, traces.imp62, lines.at6, lines.from7, lines.at7,
                              lines.from62, HOST_106)
            case Err(e) => Err(e)
            case Ok(Some(path)) => Ok(path)
            case Ok(None) => ReplyPath(rest, traces, lines, after, link)
  }

  lemma {:induction false} RequestFollowed(candidates: seq<Transfer>, traces: Traces, lines: Lines)
    requires RequestPath(candidates, traces, lines).Ok?
    ensures var p := RequestPath(candidates, traces, lines).value;
      && p.originHi in candidates && IsApplicationData(p.originHi, HOST_106) == Ok(true)
      && Followed(p, traces.imp62, traces.imp7, traces.imp6, HOST_176)
  {
    hide ForwardPath, Followed;
    var hi := candidates[0];
    if IsApplicationData(hi, HOST_106) == Ok(true)
       && ForwardPath(hi, traces.imp62, traces.imp7, traces.imp6, lines.from62, lines.at7, lines.from7, lines.at6,
                      HOST_176).value.Some? {
      ForwardPathFollows(hi, traces.imp62, traces.imp7, traces.imp6, lines.from62, lines.at7, lines.from7, lines.at6,
                         HOST_176);
    } else {
      RequestFollowed(candidates[1..], traces, lines);
    }
  }

  lemma {:induction false} ReplyFollowed(candidates: seq<Transfer>, traces: Traces, lines: Lines, after: nat,
                                         link: Option<nat>)
    requires ReplyPath(candidates, traces, lines, after, link).Ok?
    ensures var p := ReplyPath(candidates, traces, lines, after, link).value;
      && p.originHi in candidates && p.originHi.sequence > after && IsApplicationData(p.originHi, HOST_176) == Ok(true)
      && Followed(p, traces.imp6, traces.imp7, traces.imp62, HOST_106)
      && DecodeLeader(p.originHi.words).fields[LINK] == link
  {
    hide ForwardPath, Followed;
    var hi := candidates[0];
    if hi.sequence > after && IsApplicationData(hi, HOST_176) == Ok(true) && DecodeLeader(hi.words).fields[LINK] == link
       && ForwardPath(hi, traces.imp6, traces.imp7, traces.imp62, lines.at6, lines.from7, lines.at7, lines.from62,
                      HOST_106).value.Some? {
      ForwardPathFollows(hi, traces.imp6, traces.imp7, traces.imp62, lines.at6, lines.from7, lines.at7, lines.from62,
                         HOST_106);
    } else {
      ReplyFollowed(candidates[1..], traces, lines, after, link);
    }
  }

  predicate Readable(p: LegPath) {
    && |p.originHi.words| >= 2 && Narrow(p.originHi.words) && |p.destinationHi.words| >= 2
    && Narrow(p.destinationHi.words)
  }

  // ----- the observations -----

  /** Seven observations of one leg; the last boundary, into the far host, is not proved. */
  function LegObservations(bs: seq<Boundary>, p: LegPath, near: string, far: string, revision: Option<string>)
    : (observations: seq<Observation>)
    requires |bs| == 8 && Readable(p)
    ensures |observations| == 7
  {
    var (sent, arrived) := (DecodeLeader(p.originHi.words), DecodeLeader(p.destinationHi.words));
    var e := ExpectationFor(p.originHi.words);
    [PeerEgress(JOURNEY, p.originHi, bs[0], sent, e, near, revision),
     Direct(JOURNEY, p.originHi, bs[1], sent, e, near, revision),
     Direct(JOURNEY, p.firstOut, bs[2], sent, e, near, revision),
     Direct(JOURNEY, p.transitIn, bs[3], sent, e, "imp7", revision),
     Direct(JOURNEY, p.transitOut, bs[4], sent, e, "imp7", revision),
     Direct(JOURNEY, p.destinationIn, bs[5], arrived, e, far, revision),
     Direct(JOURNEY, p.destinationHi, bs[6], arrived, e, far, revision)]
  }

  /** The adapter's checks on the transfers of one leg. */
  predicate LegAdapts(bs: seq<Boundary>, p: LegPath)
    requires |bs| == 8
  {
    && PeerAdapts(p.originHi, bs[0]) && Adapts(p.originHi, bs[1]) && Adapts(p.firstOut, bs[2])
    && Adapts(p.transitIn, bs[3])
    && Adapts(p.transitOut, bs[4]) && Adapts(p.destinationIn, bs[5]) && Adapts(p.destinationHi, bs[6])
  }

  datatype Extraction = Extraction(expected: Expected, request: LegPath, reply: LegPath, observations: seq<Observation>,
                                   diagnosis: Diagnosis)

  /** extract_pdp11_its_failover_journey, with the traces already parsed and the modem lines
      already looked up. */
  function Extract(t: Topology, traces: Traces, lines: Lines, revision: Option<string>): Result<Extraction, Failure>
    requires Valid(t)
  {
    if ROUTE !in t.routes || t.routes[ROUTE] != COMPONENTS then Err(Failure.NoRoute)
    else
      match RequestPath(traces.imp62, traces, lines)
      case Err(e) => Err(e)
      case Ok(request) =>
        RequestFollowed(traces.imp62, traces, lines);
        match ReplyPath(traces.imp6, traces, lines, request.destinationHi.sequence,
                        DecodeLeader(request.originHi.words).fields[LINK])
        case Err(e) => Err(e)
        case Ok(reply) =>
          ReplyFollowed(traces.imp6, traces, lines, request.destinationHi.sequence,
                        DecodeLeader(request.originHi.words).fields[LINK]);
          match RouteBoundaries(t, ROUTE)
          case Err(e) => Err(BadRoute(e))
          case Ok(bs) =>
            var expected := Expected(JOURNEY, t.id, ROUTE, ExpectationFor(request.originHi.words),
                                     ExpectationFor(reply.originHi.words), bs);
            Concluded(t, expected, request, reply, revision)
  }

  /** The observations, the diagnosis and the last guard. */
  function Concluded(t: Topology, expected: Expected, request: LegPath, reply: LegPath, revision: Option<string>)
    : Result<Extraction, Failure>
    requires Valid(t) && Readable(request) && Readable(reply)
  {
    var (ahead, back) := (OfLeg(expected.boundaries, Request), OfLeg(expected.boundaries, Reply));
    if |ahead| != 8 || |back| != 8 then Err(WrongBoundaries)
    else if !LegAdapts(ahead, request) || !LegAdapts(back, reply) then Err(CannotAdapt)
    else
      var observations := LegObservations(ahead, request, "imp62", "imp6", revision)
        + LegObservations(back, reply, "imp6", "imp62", revision);
      match Diagnose(t, expected, observations)
      case Err(e) => Err(Rejected(e))
      case Ok(d) =>
        if AtUnprovedIngress(d) then Ok(Extraction(expected, request, reply, observations, d))
        else Err(NotAtExpectedBoundary)
  }

  /** The journey stopped at the boundary into host 106, which no trace can prove. */
  predicate AtUnprovedIngress(d: Diagnosis) {
    && d.state.MissingBoundary? && d.first.Some?
    && d.first.value.leg.Request? && d.first.value.component == "host:106" && d.first.value.direction.Ingress?
  }

  // ----- the guards -----

  const PLACES: seq<nat> := [0, 1, 2, 3, 4, 5, 6, 8, 9, 10, 11, 12, 13, 14]

  lemma LegAsExpected(expected: Expected, bs: seq<Boundary>, p: LegPath, near: string, far: string,
                      revision: Option<string>, host: nat, i: nat)
    requires |bs| == 8 && Delivered(p, host) && i < 7
    requires forall j :: 0 <= j < 8 ==> ExpectationOf(expected, bs[j].leg) == ExpectationFor(p.originHi.words)
    ensures AsExpected(expected, LegObservations(bs, p, near, far, revision)[i], bs[i])
  {
    hide Comparison, KeyOf, ExpectationFor, DecodeLeader;
    ExpectedOfItself(p.originHi.words);
  }

  lemma LegAdaptsAlways(bs: seq<Boundary>, p: LegPath)
    requires |bs| == 8 && Alternates(bs) && Acted(p) && IsHi(p.originHi, Received)
    ensures LegAdapts(bs, p)
  {
  }

  /** The observations of both legs cover every boundary but the last of each. */
  lemma LegsCover(expected: Expected, request: LegPath, reply: LegPath, revision: Option<string>)
    requires Legs(expected.boundaries, 8) && Delivered(request, HOST_176) && Delivered(reply, HOST_106)
    requires expected.request == ExpectationFor(request.originHi.words)
      && expected.reply == ExpectationFor(reply.originHi.words)
    ensures var bs := expected.boundaries;
      Covering(expected, LegObservations(bs[..8], request, "imp62", "imp6", revision)
        + LegObservations(bs[8..], reply, "imp6", "imp62", revision), PLACES)
  {
    assert Readable(request) && Readable(reply);
    PlacesAreFine();
    hide LegObservations, AsExpected, DistinctKeys, OfLeg, Alternates, ExpectationFor, Delivered, Readable;
    var (a, b) := (expected.boundaries[..8], expected.boundaries[8..]);
    var (x, y) := (LegObservations(a, request, "imp62", "imp6", revision),
                   LegObservations(b, reply, "imp6", "imp62", revision));
    forall i | 0 <= i < 7 ensures AsExpected(expected, x[i], a[i]) && AsExpected(expected, y[i], b[i]) {
      LegAsExpected(expected, a, request, "imp62", "imp6", revision, HOST_176, i);
      LegAsExpected(expected, b, reply, "imp6", "imp62", revision, HOST_106, i);
    }
    BothLegs(expected, x, y);
  }

  lemma PlacesAreFine()
    ensures |PLACES| == 14 && forall i :: 0 <= i < 14 ==> PLACES[i] == if i < 7 then i else i + 1
  {
  }

  lemma BothLegs(expected: Expected, x: seq<Observation>, y: seq<Observation>)
    requires |expected.boundaries| == 16 && |x| == |y| == 7
    requires forall i :: 0 <= i < 7 ==> AsExpected(expected, x[i], expected.boundaries[..8][i])
    requires forall i :: 0 <= i < 7 ==> AsExpected(expected, y[i], expected.boundaries[8..][i])
    ensures Covering(expected, x + y, PLACES)
  {
    hide AsExpected;
    PlacesAreFine();
    forall i | 0 <= i < 14 ensures AsExpected(expected, (x + y)[i], expected.boundaries[PLACES[i]]) {
      if i < 7 {
        assert AsExpected(expected, x[i], expected.boundaries[..8][i]);
      } else {
        assert AsExpected(expected, y[i - 7], expected.boundaries[8..][i - 7]);
      }
    }
  }

  /** Once the route is the expected one and the reducer accepts, the last guard cannot fail;
      neither can the adapter's checks or the boundary count before it. */
  lemma ConcludedIsForced(t: Topology, expected: Expected, request: LegPath, reply: LegPath, revision: Option<string>)
    requires Valid(t) && Legs(expected.boundaries, 8) && expected.boundaries[7].component == "host:106"
    requires expected.boundaries[7].direction.Ingress?
    requires Delivered(request, HOST_176) && Acted(request) && IsHi(request.originHi, Received)
    requires Delivered(reply, HOST_106) && Acted(reply) && IsHi(reply.originHi, Received)
    requires expected.request == ExpectationFor(request.originHi.words)
      && expected.reply == ExpectationFor(reply.originHi.words)
    ensures match Concluded(t, expected, request, reply, revision)
      case Ok(x) =>
        && x.request == request && x.reply == reply
        && AtUnprovedIngress(x.diagnosis) && x.diagnosis.first == Some(expected.boundaries[7])
      case Err(e) => e.Rejected?
  {
    hide LegObservations, Covering, DistinctKeys, Acted, IsHi, Delivered, Diagnosed, Check, Placed, RouteBoundaries,
      LegAdapts,
      Legs, ExpectationFor, OfLeg, Readable;
    var bs := expected.boundaries;
    LegsFacts(bs);
    ReadableBoth(request, reply);
    LegsAdapt(bs, request, reply);
    LegsCover(expected, request, reply, revision);
    var observations := LegObservations(bs[..8], request, "imp62", "imp6", revision)
      + LegObservations(bs[8..], reply, "imp6", "imp62", revision);
    PlacesUpTo();
    ForcedDiagnosis(expected, observations, PLACES, 7);
  }

  lemma LegsFacts(bs: seq<Boundary>)
    requires Legs(bs, 8)
    ensures |bs| == 16 && DistinctKeys(bs) && OfLeg(bs, Request) == bs[..8] && OfLeg(bs, Reply) == bs[8..]
    ensures bs[7].leg == Request
  {
    hide DistinctKeys, OfLeg, Alternates;
    assert bs[..8][7].leg == Request;
  }

  lemma ReadableBoth(request: LegPath, reply: LegPath)
    requires Delivered(request, HOST_176) && Delivered(reply, HOST_106)
    ensures Readable(request) && Readable(reply)
  {
  }

  lemma LegsAdapt(bs: seq<Boundary>, request: LegPath, reply: LegPath)
    requires Legs(bs, 8)
    requires Acted(request) && IsHi(request.originHi, Received) && Acted(reply) && IsHi(reply.originHi, Received)
    ensures LegAdapts(bs[..8], request) && LegAdapts(bs[8..], reply)
  {
    hide DistinctKeys, OfLeg;
    LegAdaptsAlways(bs[..8], request);
    LegAdaptsAlways(bs[8..], reply);
  }

  lemma PlacesUpTo()
    ensures (forall j :: 0 <= j < 7 ==> j in PLACES) && 7 !in PLACES
  {
    assert forall j :: 0 <= j < 7 ==> PLACES[j] == j;
  }

  /** Whenever extraction returns, both messages were followed hop by hop unchanged, and the
      diagnosis is that host 106's own ingress is the first boundary missing; and extraction
      never fails for want of boundaries, for an unsuitable transfer, or because the journey
      stopped anywhere else. */
  lemma ExtractionIsForced(t: Topology, traces: Traces, lines: Lines, revision: Option<string>)
    requires Valid(t)
    ensures match Extract(t, traces, lines, revision)
      case Ok(x) =>
        && Followed(x.request, traces.imp62, traces.imp7, traces.imp6, HOST_176)
        && Followed(x.reply, traces.imp6, traces.imp7, traces.imp62, HOST_106)
        && x.reply.originHi.sequence > x.request.destinationHi.sequence
        && AtUnprovedIngress(x.diagnosis)
      case Err(e) => !e.WrongBoundaries? && !e.CannotAdapt? && !e.NotAtExpectedBoundary?
  {
    hide Concluded, RequestPath, ReplyPath, RouteBoundaries, Legs, ExpectationFor, Followed, DecodeLeader,
      AtUnprovedIngress;
    RequestErrors(traces.imp62, traces, lines);
    if ROUTE in t.routes && t.routes[ROUTE] == COMPONENTS && RequestPath(traces.imp62, traces, lines).Ok? {
      var request := RequestPath(traces.imp62, traces, lines).value;
      RequestFollowed(traces.imp62, traces, lines);
      var (after, link) := (request.destinationHi.sequence, DecodeLeader(request.originHi.words).fields[LINK]);
      ReplyErrors(traces.imp6, traces, lines, after, link);
      if ReplyPath(traces.imp6, traces, lines, after, link).Ok? && RouteBoundaries(t, ROUTE).Ok? {
        var reply := ReplyPath(traces.imp6, traces, lines, after, link).value;
        ReplyFollowed(traces.imp6, traces, lines, after, link);
        PathsConclude(t, traces, request, reply, revision);
      }
    }
  }

  lemma PathsConclude(t: Topology, traces: Traces, request: LegPath, reply: LegPath, revision: Option<string>)
    requires Valid(t) && ROUTE in t.routes && t.routes[ROUTE] == COMPONENTS && RouteBoundaries(t, ROUTE).Ok?
    requires Followed(request, traces.imp62, traces.imp7, traces.imp6, HOST_176) && IsHi(request.originHi, Received)
    requires Followed(reply, traces.imp6, traces.imp7, traces.imp62, HOST_106) && IsHi(reply.originHi, Received)
    ensures Readable(request) && Readable(reply)
    ensures var expected := Expected(JOURNEY, t.id, ROUTE, ExpectationFor(request.originHi.words),
                                     ExpectationFor(reply.originHi.words), RouteBoundaries(t, ROUTE).value);
      match Concluded(t, expected, request, reply, revision)
      case Ok(x) => x.request == request && x.reply == reply && AtUnprovedIngress(x.diagnosis)
      case Err(e) => e.Rejected?
  {
    hide Concluded, RouteBoundaries, Legs, ExpectationFor, Comparison, Acted, IsHi;
    RouteLegs(t, ROUTE);
    assert |COMPONENTS| == 5 && COMPONENTS[4] == "host:106";
    var expected := Expected(JOURNEY, t.id, ROUTE, ExpectationFor(request.originHi.words),
                             ExpectationFor(reply.originHi.words), RouteBoundaries(t, ROUTE).value);
    ConcludedIsForced(t, expected, request, reply, revision);
  }

  lemma {:induction false} RequestErrors(candidates: seq<Transfer>, traces: Traces, lines: Lines)
    ensures RequestPath(candidates, traces, lines).Err? ==> Searching(RequestPath(candidates, traces, lines).error)
  {
    hide DecodeLeader, FirstCarrier, FirstEqual, ExpectationFor, IsHi;
    if candidates != [] {
      RequestErrors(candidates[1..], traces, lines);
      DeliveryErrors(candidates[0], traces.imp62, traces.imp7, traces.imp6, lines.from62, lines.at7, lines.from7,
                     lines.at6, HOST_176);
    }
  }

  lemma {:induction false} ReplyErrors(candidates: seq<Transfer>, traces: Traces, lines: Lines, after: nat,
                                       link: Option<nat>)
    ensures ReplyPath(candidates, traces, lines, after, link).Err? ==>
      Searching(ReplyPath(candidates, traces, lines, after, link).error)
  {
    hide DecodeLeader, FirstCarrier, FirstEqual, ExpectationFor, IsHi;
    if candidates != [] {
      ReplyErrors(candidates[1..], traces, lines, after, link);
      DeliveryErrors(candidates[0], traces.imp6, traces.imp7, traces.imp62, lines.at6, lines.from7, lines.at7,
                     lines.from62, HOST_106);
    }
  }

  lemma DeliveryErrors(hi: Transfer, origin: seq<Transfer>, transit: seq<Transfer>, destination: seq<Transfer>,
                       outLine: nat, inLine: nat, onLine: nat, atLine: nat, host: nat)
    ensures |hi.words| >= 2 && Narrow(hi.words) ==>
      var r := ForwardPath(hi, origin, transit, destination, outLine, inLine, onLine, atLine, host);
      r.Err? ==> r.error.WordTooWide?
  {
    if |hi.words| >= 2 && Narrow(hi.words) {
      hide DecodeLeader, FirstCarrier, FirstEqual, FirstDelivery, ExpectationFor, IsHi;
      var firstOut := FirstCarrier(origin, hi.sequence, outLine, hi.words);
      var transitIn := if firstOut.Some? then FirstEqual(transit, inLine, firstOut.value.words) else None;
      var transitOut := if transitIn.Some? then FirstCarrier(transit, transitIn.value.sequence, onLine, hi.words)
                        else None;
      var destinationIn := if transitOut.Some? then FirstEqual(destination, atLine, transitOut.value.words) else None;
      if destinationIn.Some? {
        FirstDeliveryErrors(destination, destinationIn.value.sequence, ExpectationFor(hi.words));
      }
    }
  }

  predicate Searching(e: Failure) { e.WordTooWide? || e.NoRequest? || e.NoReply? }
}
