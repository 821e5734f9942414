/**
 Which messages the post-cut extractor finds, said about the places of the transfers in the
 three traces: the first request, and then the first reply, that the traces carry all the way.
 */
module FailoverMeaning {
  import opened Wrappers
  import opened Digests
  import opened H316Trace
  import opened JourneyRoute
  import opened Journey
  import opened JourneyEvidence
  import opened EvidenceMeaning
  import opened FailoverJourney

  // ----- following one message -----

  /** The message is carried from hop to hop by the first transfers that carry it on, and is
      delivered under the number of `host`: places `a` to `e`. */
  predicate CarriedBy(hi: Transfer, origin: seq<Transfer>, transit: seq<Transfer>, destination: seq<Transfer>,
                      outLine: nat, inLine: nat, onLine: nat, atLine: nat, host: nat,
                      a: nat, b: nat, c: nat, d: nat, e: nat) {
    && FirstCarries(origin, a, hi.sequence, outLine, hi.words)
    && FirstArrives(transit, b, inLine, origin[a].words)
    && FirstCarries(transit, c, transit[b].sequence, onLine, hi.words)
    && FirstArrives(destination, d, atLine, transit[c].words)
    && FirstDelivers(destination, e, destination[d].sequence, hi.words)
    && destination[e].words[0] % 0x100 == host
  }

  ghost predicate Carried(hi: Transfer, origin: seq<Transfer>, transit: seq<Transfer>, destination: seq<Transfer>,
                          outLine: nat, inLine: nat, onLine: nat, atLine: nat, host: nat) {
    exists a: nat, b: nat, c: nat, d: nat, e: nat ::
      CarriedBy(hi, origin, transit, destination, outLine, inLine, onLine, atLine, host, a, b, c, d, e)
  }

  /** The path consists of exactly these transfers. */
  ghost predicate Along(p: LegPath, hi: Transfer, origin: seq<Transfer>, transit: seq<Transfer>,
                        destination: seq<Transfer>, outLine: nat, inLine: nat, onLine: nat, atLine: nat, host: nat) {
    exists a: nat, b: nat, c: nat, d: nat, e: nat ::
      && CarriedBy(hi, origin, transit, destination, outLine, inLine, onLine, atLine, host, a, b, c, d, e)
      && p == LegPath(hi, origin[a], transit[b], transit[c], destination[d], destination[e])
  }

  lemma ForwardMeans(hi: Transfer, origin: seq<Transfer>, transit: seq<Transfer>, destination: seq<Transfer>,
                     outLine: nat, inLine: nat, onLine: nat, atLine: nat, host: nat)
    requires |hi.words| >= 2 && Narrow(hi.words)
    ensures match ForwardPath(hi, origin, transit, destination, outLine, inLine, onLine, atLine, host)
      case Err(_) => SomeWide(destination)
      case Ok(None) => !Carried(hi, origin, transit, destination, outLine, inLine, onLine, atLine, host)
      case Ok(Some(p)) => Along(p, hi, origin, transit, destination, outLine, inLine, onLine, atLine, host)
  {
    ForwardFinds(hi, origin, transit, destination, outLine, inLine, onLine, atLine, host);
    hide ForwardPath, CarriedBy, SomeWide, Along;
    if Carried(hi, origin, transit, destination, outLine, inLine, onLine, atLine, host) {
      var a: nat, b: nat, c: nat, d: nat, e: nat :|
        CarriedBy(hi, origin, transit, destination, outLine, inLine, onLine, atLine, host, a, b, c, d, e);
      CarriedIsFound(hi, origin, transit, destination, outLine, inLine, onLine, atLine, host, a, b, c, d, e);
    }
  }

  lemma CarriedIsFound(hi: Transfer, origin: seq<Transfer>, transit: seq<Transfer>, destination: seq<Transfer>,
                       outLine: nat, inLine: nat, onLine: nat, atLine: nat, host: nat,
                       a: nat, b: nat, c: nat, d: nat, e: nat)
    requires |hi.words| >= 2 && Narrow(hi.words)
    requires CarriedBy(hi, origin, transit, destination, outLine, inLine, onLine, atLine, host, a, b, c, d, e)
    ensures ForwardPath(hi, origin, transit, destination, outLine, inLine, onLine, atLine, host) != Ok(None)
  {
    CarrierIs(origin, a, hi.sequence, outLine, hi.words);
    ArrivalIs(transit, b, inLine, origin[a].words);
    CarrierIs(transit, c, transit[b].sequence, onLine, hi.words);
    ArrivalIs(destination, d, atLine, transit[c].words);
    DeliveryIs(destination, e, destination[d].sequence, hi.words);
    hide FirstCarries, FirstArrives, FirstDelivers, FirstCarrier, FirstEqual, FirstDelivery, ExpectationFor, SomeWide;
  }

  lemma ForwardFinds(hi: Transfer, origin: seq<Transfer>, transit: seq<Transfer>, destination: seq<Transfer>,
                     outLine: nat, inLine: nat, onLine: nat, atLine: nat, host: nat)
    requires |hi.words| >= 2 && Narrow(hi.words)
    ensures match ForwardPath(hi, origin, transit, destination, outLine, inLine, onLine, atLine, host)
      case Err(_) => SomeWide(destination)
      case Ok(None) => true
      case Ok(Some(p)) => Along(p, hi, origin, transit, destination, outLine, inLine, onLine, atLine, host)
  {
    hide FirstCarrier, FirstEqual, FirstDelivery, FirstCarries, FirstArrives, FirstDelivers, ExpectationFor, SomeWide;
    hide CarriedBy;
    var firstOut := FirstCarrier(origin, hi.sequence, outLine, hi.words);
    if firstOut.Some? {
      var a := FindCarrier(origin, hi.sequence, outLine, hi.words);
      var transitIn := FirstEqual(transit, inLine, firstOut.value.words);
      if transitIn.Some? {
        var b := FindArrival(transit, inLine, firstOut.value.words);
        var transitOut := FirstCarrier(transit, transitIn.value.sequence, onLine, hi.words);
        if transitOut.Some? {
          var c := FindCarrier(transit, transitIn.value.sequence, onLine, hi.words);
          var destinationIn := FirstEqual(destination, atLine, transitOut.value.words);
          if destinationIn.Some? {
            var d := FindArrival(destination, atLine, transitOut.value.words);
            var e := FindDelivery(destination, destinationIn.value.sequence, hi.words);
            var found := FirstDelivery(destination, destinationIn.value.sequence, ExpectationFor(hi.words));
            if found.Ok? && found.value.Some? && destination[e].words[0] % 0x100 == host {
              LastHop(hi, origin, transit, destination, outLine, inLine, onLine, atLine, host, a, b, c, d, e);
            }
          }
        }
      }
    }
  }

  lemma LastHop(hi: Transfer, origin: seq<Transfer>, transit: seq<Transfer>, destination: seq<Transfer>,
                outLine: nat, inLine: nat, onLine: nat, atLine: nat, host: nat, a: nat, b: nat, c: nat, d: nat, e: nat)
    requires FirstCarries(origin, a, hi.sequence, outLine, hi.words)
    requires FirstArrives(transit, b, inLine, origin[a].words)
    requires FirstCarries(transit, c, transit[b].sequence, onLine, hi.words)
    requires FirstArrives(destination, d, atLine, transit[c].words)
    requires FirstDelivers(destination, e, destination[d].sequence, hi.words) && destination[e].words[0] % 0x100 == host
    ensures Along(LegPath(hi, origin[a], transit[b], transit[c], destination[d], destination[e]),
                  hi, origin, transit, destination, outLine, inLine, onLine, atLine, host)
  {
    assert CarriedBy(hi, origin, transit, destination, outLine, inLine, onLine, atLine, host, a, b, c, d, e);
    hide CarriedBy;
  }

  // ----- the requests and the replies -----

  /** A user message for `host`, on a link other than zero, in octets, with at least one. */
  predicate UserMessage(t: Transfer, host: nat) {
    && HostMessage(t, Received) && |t.words| >= 5 && Fits(t.words)
    && t.words[0] == host && t.words[1] >= 0x100 && t.words[2] % 0x100 == 8 && t.words[3] > 0
  }

  lemma UserMessageMeans(t: Transfer, host: nat)
    requires host < 0x100
    ensures IsApplicationData(t, host) == Ok(true) <==> UserMessage(t, host)
    ensures IsApplicationData(t, host).Err? ==> IsApplicationData(t, host).error.WordTooWide? && !Fits(t.words)
  {
    NarrowFits(t.words);
    hide Narrow, Fits;
  }

  /** Place `i` of IMP 62's trace holds a user message that the traces carry to host 106. */
  ghost predicate IsRequest(traces: Traces, lines: Lines, i: nat) {
    && i < |traces.imp62| && UserMessage(traces.imp62[i], HOST_106)
    && Carried(traces.imp62[i], traces.imp62, traces.imp7, traces.imp6, lines.from62, lines.at7, lines.from7, lines.at6,
               HOST_176)
  }

  ghost predicate RequestAlong(traces: Traces, lines: Lines, i: nat, p: LegPath) {
    && i < |traces.imp62| && UserMessage(traces.imp62[i], HOST_106)
    && Along(p, traces.imp62[i], traces.imp62, traces.imp7, traces.imp6, lines.from62, lines.at7, lines.from7,
             lines.at6,
             HOST_176)
  }

  /** Place `i` of IMP 6's trace holds a user message on the link, after `after`, that the traces
      carry to host 176. */
  ghost predicate IsReply(traces: Traces, lines: Lines, after: nat, link: nat, i: nat) {
    && i < |traces.imp6| && UserMessage(traces.imp6[i], HOST_176)
    && traces.imp6[i].sequence > after && traces.imp6[i].words[1] / 0x100 == link
    && Carried(traces.imp6[i], traces.imp6, traces.imp7, traces.imp62, lines.at6, lines.from7, lines.at7, lines.from62,
               HOST_106)
  }

  ghost predicate ReplyAlong(traces: Traces, lines: Lines, after: nat, link: nat, i: nat, p: LegPath) {
    && i < |traces.imp6| && UserMessage(traces.imp6[i], HOST_176)
    && traces.imp6[i].sequence > after && traces.imp6[i].words[1] / 0x100 == link
    && Along(p, traces.imp6[i], traces.imp6, traces.imp7, traces.imp62, lines.at6, lines.from7, lines.at7, lines.from62,
             HOST_106)
  }

  /** From place `n` on the search answers the first request there is; that there is none, only
      if there is none; or that a word is too wide, only if one is. */
  lemma {:induction false} RequestFrom(traces: Traces, lines: Lines, n: nat) returns (i: nat)
    requires n <= |traces.imp62|
    ensures match RequestPath(traces.imp62[n..], traces, lines)
      case Ok(p) => i >= n && RequestAlong(traces, lines, i, p)
        && forall k :: n <= k < i ==> !IsRequest(traces, lines, k)
      case Err(e) =>
        || (e.NoRequest? && forall k :: n <= k ==> !IsRequest(traces, lines, k))
        || (e.WordTooWide? && (SomeWide(traces.imp62) || SomeWide(traces.imp6)))
    decreases |traces.imp62| - n
  {
    hide Carried, Along, UserMessage, ForwardPath, SomeWide, IsApplicationData;
    i := n;
    if n < |traces.imp62| {
      var hi := traces.imp62[n];
      UserMessageMeans(hi, HOST_106);
      WideHere(traces.imp62, n);
      UserMessageHead(hi, HOST_106);
      if IsApplicationData(hi, HOST_106) == Ok(true) {
        ForwardMeans(hi, traces.imp62, traces.imp7, traces.imp6, lines.from62, lines.at7, lines.from7, lines.at6,
                     HOST_176);
        ForwardErrors(hi, traces.imp62, traces.imp7, traces.imp6, lines.from62, lines.at7, lines.from7, lines.at6,
                      HOST_176);
      }
      assert traces.imp62[n..][1..] == traces.imp62[n + 1..];
      var later := RequestFrom(traces, lines, n + 1);
      if RequestPath(traces.imp62[n..], traces, lines) == RequestPath(traces.imp62[n + 1..], traces, lines)
         && !IsRequest(traces, lines, n) {
        i := later;
      }
    }
  }

  lemma {:induction false} ReplyFrom(traces: Traces, lines: Lines, after: nat, link: nat, n: nat) returns (i: nat)
    requires n <= |traces.imp6|
    ensures match ReplyPath(traces.imp6[n..], traces, lines, after, Some(link))
      case Ok(p) =>
        i >= n && ReplyAlong(traces, lines, after, link, i, p)
          && forall k :: n <= k < i ==> !IsReply(traces, lines, after, link, k)
      case Err(e) =>
        || (e.NoReply? && forall k :: n <= k ==> !IsReply(traces, lines, after, link, k))
        || (e.WordTooWide? && (SomeWide(traces.imp6) || SomeWide(traces.imp62)))
    decreases |traces.imp6| - n
  {
    hide Carried, Along, UserMessage, ForwardPath, SomeWide, IsApplicationData, DecodeLeader;
    i := n;
    if n < |traces.imp6| {
      var hi := traces.imp6[n];
      UserMessageMeans(hi, HOST_176);
      WideHere(traces.imp6, n);
      UserMessageHead(hi, HOST_176);
      if IsApplicationData(hi, HOST_176) == Ok(true) {
        LinkMeans(hi.words);
        ForwardMeans(hi, traces.imp6, traces.imp7, traces.imp62, lines.at6, lines.from7, lines.at7, lines.from62,
                     HOST_106);
        ForwardErrors(hi, traces.imp6, traces.imp7, traces.imp62, lines.at6, lines.from7, lines.at7, lines.from62,
                      HOST_106);
      }
      assert traces.imp6[n..][1..] == traces.imp6[n + 1..];
      var later := ReplyFrom(traces, lines, after, link, n + 1);
      if ReplyPath(traces.imp6[n..], traces, lines, after, Some(link))
           == ReplyPath(traces.imp6[n + 1..], traces, lines, after, Some(link))
         && !IsReply(traces, lines, after, link, n) {
        i := later;
      }
    }
  }

  lemma LinkMeans(words: seq<nat>)
    requires |words| >= 2 && Narrow(words)
    ensures DecodeLeader(words).fields[LINK] == Some(words[1] / 0x100)
  {
  }

  /** The extraction is of the first request that the traces carry, and of the first reply to it
      that they carry. It ends without a request only if there is none, and without a reply only
      if there is none to the first request; otherwise some word in the traces is too wide. */
  lemma ExtractionMeans(t: Topology, traces: Traces, lines: Lines, revision: Option<string>)
    requires Valid(t)
    ensures match Extract(t, traces, lines, revision)
      case Ok(x) => exists i, j :: Transaction(traces, lines, i, j, x.request, x.reply)
      case Err(e) =>
        && (e.NoRequest? ==> forall k: nat :: !IsRequest(traces, lines, k))
        && (e.NoReply? ==> exists i: nat, p :: FirstRequest(traces, lines, i, p) && NoReplyTo(traces, lines, p))
        && (e.WordTooWide? ==> SomeWide(traces.imp62) || SomeWide(traces.imp6))
  {
    hide Concluded, RequestPath, ReplyPath, RouteBoundaries, SomeWide, IsRequest, IsReply, RequestAlong, ReplyAlong;
    hide DecodeLeader, FirstRequest, Transaction, NoReplyTo, ExpectationFor, Followed;
    assert traces.imp62[0..] == traces.imp62 && traces.imp6[0..] == traces.imp6;
    var i := RequestFrom(traces, lines, 0);
    if ROUTE in t.routes && t.routes[ROUTE] == COMPONENTS && RequestPath(traces.imp62, traces, lines).Ok? {
      var request := RequestPath(traces.imp62, traces, lines).value;
      RequestFollowed(traces.imp62, traces, lines);
      FollowedHead(request, traces.imp62, traces.imp7, traces.imp6, HOST_176);
      LinkMeans(request.originHi.words);
      var (after, link) := (request.destinationHi.sequence, request.originHi.words[1] / 0x100);
      var j := ReplyFrom(traces, lines, after, link, 0);
      IsFirst(traces, lines, i, request);
      if ReplyPath(traces.imp6, traces, lines, after, Some(link)).Ok? && RouteBoundaries(t, ROUTE).Ok? {
        var reply := ReplyPath(traces.imp6, traces, lines, after, Some(link)).value;
        ReplyFollowed(traces.imp6, traces, lines, after, Some(link));
        FollowedHead(reply, traces.imp6, traces.imp7, traces.imp62, HOST_106);
        ConcludedKeeps(t, Expected(JOURNEY, t.id, ROUTE, ExpectationFor(request.originHi.words),
                                   ExpectationFor(reply.originHi.words), RouteBoundaries(t, ROUTE).value),
                       request, reply, revision);
        IsTransaction(traces, lines, i, j, request, reply);
      }
      NoneMeans(traces, lines, request);
    }
  }

  lemma FollowedHead(p: LegPath, origin: seq<Transfer>, transit: seq<Transfer>, destination: seq<Transfer>, host: nat)
    requires Followed(p, origin, transit, destination, host)
    ensures Readable(p)
  {
  }

  lemma IsFirst(traces: Traces, lines: Lines, i: nat, p: LegPath)
    requires |p.originHi.words| >= 2 && RequestAlong(traces, lines, i, p)
    requires forall k :: 0 <= k < i ==> !IsRequest(traces, lines, k)
    ensures FirstRequest(traces, lines, i, p)
  {
  }

  lemma IsTransaction(traces: Traces, lines: Lines, i: nat, j: nat, request: LegPath, reply: LegPath)
    requires FirstRequest(traces, lines, i, request)
    requires var (after, link) := (request.destinationHi.sequence, request.originHi.words[1] / 0x100);
      ReplyAlong(traces, lines, after, link, j, reply)
        && forall k :: 0 <= k < j ==> !IsReply(traces, lines, after, link, k)
    ensures Transaction(traces, lines, i, j, request, reply)
  {
  }

  lemma NoneMeans(traces: Traces, lines: Lines, p: LegPath)
    requires |p.originHi.words| >= 2
    ensures NoReplyTo(traces, lines, p) <==>
      forall k :: 0 <= k ==> !IsReply(traces, lines, p.destinationHi.sequence, p.originHi.words[1] / 0x100, k)
  {
  }

  ghost predicate NoReplyTo(traces: Traces, lines: Lines, p: LegPath) {
    |p.originHi.words| >= 2
    && forall k: nat :: !IsReply(traces, lines, p.destinationHi.sequence, p.originHi.words[1] / 0x100, k)
  }

  lemma ConcludedKeeps(t: Topology, expected: Expected, request: LegPath, reply: LegPath, revision: Option<string>)
    requires Valid(t) && Readable(request) && Readable(reply)
    ensures match Concluded(t, expected, request, reply, revision)
      case Ok(x) => x.request == request && x.reply == reply && x.expected == expected
      case Err(e) => !e.NoRequest? && !e.NoReply? && !e.WordTooWide?
  {
    hide LegObservations, LegAdapts, Diagnose, OfLeg, Readable;
  }

  /** `p` is the first request. */
  ghost predicate FirstRequest(traces: Traces, lines: Lines, i: nat, p: LegPath) {
    |p.originHi.words| >= 2 && RequestAlong(traces, lines, i, p)
      && forall k :: 0 <= k < i ==> !IsRequest(traces, lines, k)
  }

  ghost predicate Transaction(traces: Traces, lines: Lines, i: nat, j: nat, request: LegPath, reply: LegPath) {
    && FirstRequest(traces, lines, i, request)
    && var (after, link) := (request.destinationHi.sequence, request.originHi.words[1] / 0x100);
       ReplyAlong(traces, lines, after, link, j, reply)
         && forall k :: 0 <= k < j ==> !IsReply(traces, lines, after, link, k)
  }

  lemma WideHere(ts: seq<Transfer>, n: nat)
    requires n < |ts|
    ensures !Fits(ts[n].words) ==> SomeWide(ts)
  {
  }

  lemma UserMessageHead(t: Transfer, host: nat)
    ensures UserMessage(t, host) ==> |t.words| >= 2 && Narrow(t.words)
  {
  }

  lemma ForwardErrors(hi: Transfer, origin: seq<Transfer>, transit: seq<Transfer>, destination: seq<Transfer>,
                      outLine: nat, inLine: nat, onLine: nat, atLine: nat, host: nat)
    requires |hi.words| >= 2 && Narrow(hi.words)
    ensures var r := ForwardPath(hi, origin, transit, destination, outLine, inLine, onLine, atLine, host);
      r.Err? ==> r.error.WordTooWide?
  {
    DeliveryErrors(hi, origin, transit, destination, outLine, inLine, onLine, atLine, host);
  }

  // ----- what the observations say -----

  /** The IMP whose trace speaks of a component, in the laboratory's names. */
  function TraceOf(component: string): string {
    if component == "imp:62" then "imp62" else if component == "imp:7" then "imp7" else "imp6"
  }

  function TransferAt(p: LegPath, i: nat): Transfer
    requires i < 7
  {
    if i < 2 then p.originHi else if i == 2 then p.firstOut else if i == 3 then p.transitIn
    else if i == 4 then p.transitOut else if i == 5 then p.destinationIn else p.destinationHi
  }

  /** The observation is of this boundary, by this transfer, out of the trace of the IMP it is at;
      the host's own egress is what the IMP next to it shows. */
  predicate Witnesses(o: Observation, b: Boundary, p: LegPath, i: nat, near: string, fingerprint: Digest,
                      revision: Option<string>)
    requires i < 7 && Readable(p)
  {
    && o.key == KeyOf(b) && o.journey == JOURNEY && o.fingerprint == fingerprint
    && o.sequence == TransferAt(p, i).sequence && o.tick == Some(TransferAt(p, i).tick)
    && o.decoded == DecodeLeader(if i < 5 then p.originHi.words else p.destinationHi.words)
    && o.provenance.revision == revision
    && o.provenance.id == (if i == 0 then "source:" + near + ":connected-peer" else "source:" + TraceOf(b.component))
  }

  lemma LegWitnesses(bs: seq<Boundary>, p: LegPath, near: string, far: string, revision: Option<string>, i: nat)
    requires |bs| == 8 && Readable(p) && i < 7
    requires TraceOf(bs[1].component) == near && TraceOf(bs[2].component) == near
    requires TraceOf(bs[3].component) == "imp7" && TraceOf(bs[4].component) == "imp7"
    requires TraceOf(bs[5].component) == far && TraceOf(bs[6].component) == far
    ensures Witnesses(LegObservations(bs, p, near, far, revision)[i], bs[i], p, i, near,
                      ExpectationFor(p.originHi.words).fingerprint, revision)
  {
    hide DecodeLeader, ExpectationFor, KeyOf, TraceOf;
  }

  /** Each observation of an extraction is of its own boundary, by the transfer of the path that
      crosses it, out of the trace of the IMP the boundary is at. */
  lemma ObservationsMean(t: Topology, traces: Traces, lines: Lines, revision: Option<string>, i: nat)
    requires Valid(t) && Extract(t, traces, lines, revision).Ok? && i < 7
    ensures var x := Extract(t, traces, lines, revision).value;
      && |x.expected.boundaries| == 16 && |x.observations| == 14 && Readable(x.request) && Readable(x.reply)
      && Witnesses(x.observations[i], x.expected.boundaries[i], x.request, i, "imp62",
                   ExpectationFor(x.request.originHi.words).fingerprint, revision)
      && Witnesses(x.observations[7 + i], x.expected.boundaries[8 + i], x.reply, i, "imp6",
                   ExpectationFor(x.reply.originHi.words).fingerprint, revision)
  {
    hide *;
    var x := Extract(t, traces, lines, revision).value;
    ExtractedParts(t, traces, lines, revision);
    var bs := x.expected.boundaries;
    RouteHalves(t, bs);
    AlongComponents(t, bs);
    assert bs[..8][i] == bs[i] && bs[8..][i] == bs[8 + i];
    LegWitnesses(bs[..8], x.request, "imp62", "imp6", revision, i);
    LegWitnesses(bs[8..], x.reply, "imp6", "imp62", revision, i);
  }

  lemma RouteHalves(t: Topology, bs: seq<Boundary>)
    requires Valid(t) && ROUTE in t.routes && t.routes[ROUTE] == COMPONENTS && RouteBoundaries(t, ROUTE) == Ok(bs)
    ensures |bs| == 16 && OfLeg(bs, Request) == bs[..8] && OfLeg(bs, Reply) == bs[8..]
  {
    RouteLegs(t, ROUTE);
    LegsFacts(bs);
    hide *;
  }

  lemma ExtractedParts(t: Topology, traces: Traces, lines: Lines, revision: Option<string>)
    requires Valid(t) && Extract(t, traces, lines, revision).Ok?
    ensures var x := Extract(t, traces, lines, revision).value;
      && ROUTE in t.routes && t.routes[ROUTE] == COMPONENTS && RouteBoundaries(t, ROUTE) == Ok(x.expected.boundaries)
      && Readable(x.request) && Readable(x.reply)
      && |OfLeg(x.expected.boundaries, Request)| == 8 && |OfLeg(x.expected.boundaries, Reply)| == 8
      && x.observations == LegObservations(OfLeg(x.expected.boundaries, Request), x.request, "imp62", "imp6", revision)
                         + LegObservations(OfLeg(x.expected.boundaries, Reply), x.reply, "imp6", "imp62", revision)
  {
    hide RequestPath, ReplyPath, RouteBoundaries, LegObservations, LegAdapts, Diagnose, OfLeg, ExpectationFor, Followed;
    var request := RequestPath(traces.imp62, traces, lines).value;
    RequestFollowed(traces.imp62, traces, lines);
    FollowedHead(request, traces.imp62, traces.imp7, traces.imp6, HOST_176);
    var (after, link) := (request.destinationHi.sequence, DecodeLeader(request.originHi.words).fields[LINK]);
    ReplyFollowed(traces.imp6, traces, lines, after, link);
    FollowedHead(ReplyPath(traces.imp6, traces, lines, after, link).value, traces.imp6, traces.imp7, traces.imp62,
                 HOST_106);
    hide DecodeLeader;
  }

  /** Where the boundaries of the alternate route are. */
  lemma AlongComponents(t: Topology, bs: seq<Boundary>)
    requires Valid(t) && ROUTE in t.routes && t.routes[ROUTE] == COMPONENTS && RouteBoundaries(t, ROUTE) == Ok(bs)
    ensures |bs| == 16
    ensures TraceOf(bs[1].component) == "imp62" && TraceOf(bs[2].component) == "imp62"
    ensures TraceOf(bs[3].component) == "imp7" && TraceOf(bs[4].component) == "imp7"
    ensures TraceOf(bs[5].component) == "imp6" && TraceOf(bs[6].component) == "imp6"
    ensures TraceOf(bs[8 + 1].component) == "imp6" && TraceOf(bs[8 + 2].component) == "imp6"
    ensures TraceOf(bs[8 + 3].component) == "imp7" && TraceOf(bs[8 + 4].component) == "imp7"
    ensures TraceOf(bs[8 + 5].component) == "imp62" && TraceOf(bs[8 + 6].component) == "imp62"
  {
    BothWays(t, bs);
    hide *;
    AheadComponents(bs);
    OppositeComponent(bs, 1);
    OppositeComponent(bs, 2);
    OppositeComponent(bs, 3);
    OppositeComponent(bs, 4);
    OppositeComponent(bs, 5);
    OppositeComponent(bs, 6);
  }

  lemma BothWays(t: Topology, bs: seq<Boundary>)
    requires Valid(t) && ROUTE in t.routes && t.routes[ROUTE] == COMPONENTS && RouteBoundaries(t, ROUTE) == Ok(bs)
    ensures |bs| == 16
    ensures forall i :: 0 <= i < 4 ==> PairAlong(bs, COMPONENTS, i)
    ensures forall i :: 0 <= i < 8 ==> MirroredAt(bs, 8, i)
  {
    RouteMirroring(t, ROUTE);
    RouteAlongPath(t, ROUTE);
    hide RouteBoundaries, DistinctKeys, PairAlong, MirroredAt;
  }

  lemma AheadComponents(bs: seq<Boundary>)
    requires |bs| == 16 && PairAlong(bs, COMPONENTS, 0) && PairAlong(bs, COMPONENTS, 1)
    requires PairAlong(bs, COMPONENTS, 2) && PairAlong(bs, COMPONENTS, 3)
    ensures bs[1].component == bs[2].component == "imp:62" && bs[3].component == bs[4].component == "imp:7"
    ensures bs[5].component == bs[6].component == "imp:6"
    ensures TraceOf("imp:62") == "imp62" && TraceOf("imp:7") == "imp7" && TraceOf("imp:6") == "imp6"
  {
  }

  lemma OppositeComponent(bs: seq<Boundary>, i: nat)
    requires |bs| == 16 && i < 8 && MirroredAt(bs, 8, i)
    ensures bs[8 + i].component == bs[7 - i].component
  {
  }
}
