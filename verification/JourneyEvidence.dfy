/**
 What the path extractors share (ncc/pdp11_its_journey.py, ncc/pdp11_its_failover_journey.py):
 leader decoding, the search for the same message on both sides of a hop, and what a
 diagnosis must say once some boundaries are covered by matching observations.
 */
module JourneyEvidence {
  import opened Wrappers
  import opened Digests
  import HostInterface
  import opened H316Trace
  import opened JourneyRoute
  import opened Journey

  // ----- leaders -----

  function ClassOf(messageType: nat): MessageClass {
    if messageType == 0 then Regular
    else if messageType == 1 then ErrorWithLeader
    else if messageType == 4 then Nop
    else if messageType == 5 then Rfnm
    else ImpControl
  }

  predicate Narrow(words: seq<nat>) { forall i :: 0 <= i < |words| ==> words[i] <= 0xFFFF }

  const TYPE := 0
  const HOST := 1
  const LINK := 2
  const SUBTYPE := 3
  const M1 := 4
  const BYTE_SIZE := 5
  const BYTE_COUNT := 6
  const M2 := 7
  const OPCODE := 8

  /** decode_nosc_short_leader. */
  function DecodeLeader(words: seq<nat>): Decoded
    requires |words| >= 2 && Narrow(words)
  {
    var (first, second) := (words[0], words[1]);
    var (messageType, link) := (first / 0x100, second / 0x100);
    var head := [Some(messageType), Some(first % 0x100), Some(link), Some(second % 0x100)];
    var rest := if ClassOf(messageType).Regular? && |words| >= 5
      then [Some(words[2] / 0x100), Some(words[2] % 0x100), Some(words[3]), Some(words[4] / 0x100),
            if link == 0 then Some(words[4] % 0x100) else None]
      else [None, None, None, None, None];
    Decoded(ClassOf(messageType), head + rest)
  }

  /** The decoded fields determine the leader words, and of a regular message all but the low
      octet of the fifth word when the link is not zero. */
  lemma LeaderRecovered(a: seq<nat>, b: seq<nat>)
    requires |a| >= 2 && |b| >= 2 && Narrow(a) && Narrow(b)
    requires DecodeLeader(a).fields[TYPE] == DecodeLeader(b).fields[TYPE]
    requires DecodeLeader(a).fields[LINK] == DecodeLeader(b).fields[LINK]
    requires DecodeLeader(a).fields[SUBTYPE] == DecodeLeader(b).fields[SUBTYPE]
    ensures a[1] == b[1] && a[0] / 0x100 == b[0] / 0x100
    ensures DecodeLeader(a).fields[HOST] == DecodeLeader(b).fields[HOST] ==> a[0] == b[0]
  {
  }

  /** The leader's fields are the first four octets of the message in network order: type, host,
      link and subtype; the class goes by the type. */
  lemma LeaderOctets(words: seq<nat>)
    requires |words| >= 2 && Narrow(words)
    ensures var (d, b) := (DecodeLeader(words), HostInterface.WordBytes(words));
      && d.fields[TYPE] == Some(b[0]) && d.fields[HOST] == Some(b[1])
      && d.fields[LINK] == Some(b[2]) && d.fields[SUBTYPE] == Some(b[3])
      && (d.messageClass.Regular? <==> b[0] == 0) && (d.messageClass.ErrorWithLeader? <==> b[0] == 1)
      && (d.messageClass.Nop? <==> b[0] == 4) && (d.messageClass.Rfnm? <==> b[0] == 5)
      && (d.messageClass.ImpControl? <==> b[0] !in {0, 1, 4, 5})
  {
    HostInterface.WordBytesMean(words, 0);
    HostInterface.WordBytesMean(words, 1);
    hide HostInterface.WordBytes;
  }

  /** Of a user message with at least five words the further fields are the next six octets; the
      opcode only on link zero. */
  lemma UserOctets(words: seq<nat>)
    requires |words| >= 2 && Narrow(words)
    ensures var (d, b) := (DecodeLeader(words), HostInterface.WordBytes(words));
      && (if b[0] == 0 && |words| >= 5 then
            && d.fields[M1] == Some(b[4]) && d.fields[BYTE_SIZE] == Some(b[5])
            && d.fields[BYTE_COUNT] == Some(0x100 * (b[6] as nat) + (b[7] as nat)) && d.fields[M2] == Some(b[8])
            && d.fields[OPCODE] == if b[2] == 0 then Some(b[9]) else None
          else forall f :: M1 <= f <= OPCODE ==> d.fields[f].None?)
  {
    hide HostInterface.WordBytes;
    HostInterface.WordBytesMean(words, 0);
    HostInterface.WordBytesMean(words, 1);
    if |words| >= 5 {
      HostInterface.WordBytesMean(words, 2);
      HostInterface.WordBytesMean(words, 3);
      HostInterface.WordBytesMean(words, 4);
      assert words[3] == words[3] / 0x100 * 0x100 + words[3] % 0x100;
    }
  }

  // ----- correlation -----

  function Fingerprint(words: seq<nat>): Digest
    requires Narrow(words)
  {
    Sha256(HostInterface.WordBytes(words))
  }

  lemma FingerprintInjective(a: seq<nat>, b: seq<nat>)
    requires Narrow(a) && Narrow(b) && Fingerprint(a) == Fingerprint(b)
    ensures a == b
  {
    HostInterface.WordsInvert(a);
    HostInterface.WordsInvert(b);
  }

  lemma TailNarrow(words: seq<nat>, k: nat)
    requires Narrow(words) && k <= |words|
    ensures Narrow(words[k..])
  {
  }

  /** The fingerprint of a host message's body, the words after its leader. */
  function BodyFingerprint(words: seq<nat>): Digest
    requires |words| >= 2 && Narrow(words)
  {
    TailNarrow(words, 2);
    Fingerprint(words[2..])
  }

  /** What the message first seen at `words` is expected to be everywhere: the same but for
      the host field, which names the other end. */
  function ExpectationFor(words: seq<nat>): Expectation
    requires |words| >= 2 && Narrow(words)
  {
    var decoded := DecodeLeader(words);
    Expectation(BodyFingerprint(words), decoded.messageClass, decoded.fields[HOST := None])
  }

  /** A message compared with the expectation made from itself is as expected. */
  lemma ExpectedOfItself(words: seq<nat>)
    requires |words| >= 2 && Narrow(words)
    ensures Comparison(ExpectationFor(words), DecodeLeader(words)) == Observed
  {
    var (e, d) := (ExpectationFor(words), DecodeLeader(words));
    forall i | 0 <= i < FIELDS ensures !Contradicts(e.fields[i], d.fields[i]) && !Leaves(e.fields[i], d.fields[i]) {
    }
  }

  // ----- transfers -----

  predicate IsHi(t: Transfer, action: Action) {
    t.complete && t.device == Device(false, 2) && t.action == action && |t.words| >= 2
  }

  predicate IsMi(t: Transfer, action: Action, line: nat) {
    t.complete && t.device == Device(true, line) && t.action == action
  }

  /** An MI packet holds the host message literally, between its four words of envelope. */
  predicate Contains(modem: seq<nat>, host: seq<nat>) {
    |host| >= 2 && |modem| == |host| + 4 && modem[2] == host[0] && modem[4..|modem| - 1] == host[1..]
  }

  datatype Failure =
    | WordTooWide
    | NoRoute
    | NoRequest
    | NoReply
    | NoGuestMessage
    | BadRoute(route: RouteError)
    | WrongBoundaries
    | CannotAdapt
    | FingerprintChanged
    | Rejected(error: Journey.Error)
    | NotAtExpectedBoundary
    | NotComplete

  /** The first transfer after `after` sent on `line` that carries the host message. */
  function FirstCarrier(transfers: seq<Transfer>, after: nat, line: nat, host: seq<nat>): (r: Option<Transfer>)
    ensures r.Some? ==>
      r.value in transfers && r.value.sequence > after && IsMi(r.value, Sent, line) && Contains(r.value.words, host)
    ensures r.None? ==> forall t :: t in transfers && t.sequence > after && IsMi(t, Sent, line) ==>
      !Contains(t.words, host)
  {
    if transfers == [] then None
    else if transfers[0].sequence > after && IsMi(transfers[0], Sent, line) && Contains(transfers[0].words, host)
      then Some(transfers[0])
    else FirstCarrier(transfers[1..], after, line, host)
  }

  /** The first transfer received on `line` with exactly these words. */
  function FirstEqual(transfers: seq<Transfer>, line: nat, words: seq<nat>): (r: Option<Transfer>)
    ensures r.Some? ==> r.value in transfers && IsMi(r.value, Received, line) && r.value.words == words
    ensures r.None? ==> forall t :: t in transfers && IsMi(t, Received, line) ==> t.words != words
  {
    if transfers == [] then None
    else if IsMi(transfers[0], Received, line) && transfers[0].words == words then Some(transfers[0])
    else FirstEqual(transfers[1..], line, words)
  }

  /** Whether a transfer is the expected message; words wider than sixteen bits are refused. */
  function Matches(t: Transfer, expectation: Expectation): Result<bool, Failure> {
    if !IsHi(t, t.action) then Ok(false)
    else if !Narrow(t.words[2..]) then Err(WordTooWide)
    else if Fingerprint(t.words[2..]) != expectation.fingerprint then Ok(false)
    else if !Narrow(t.words) then Err(WordTooWide)
    else Ok(Comparison(expectation, DecodeLeader(t.words)) == Observed)
  }

  /** The first transfer after `after` sent to the host that is the expected message. */
  function FirstDelivery(transfers: seq<Transfer>, after: nat, expectation: Expectation)
    : (r: Result<Option<Transfer>, Failure>)
    ensures r.Ok? && r.value.Some? ==>
      && r.value.value in transfers && r.value.value.sequence > after && IsHi(r.value.value, Sent)
      && Matches(r.value.value, expectation) == Ok(true)
  {
    if transfers == [] then Ok(None)
    else
      var t := transfers[0];
      if !(t.sequence > after && IsHi(t, Sent)) then FirstDelivery(transfers[1..], after, expectation)
      else
        match Matches(t, expectation)
        case Err(e) => Err(e)
        case Ok(true) => Ok(Some(t))
        case Ok(false) => FirstDelivery(transfers[1..], after, expectation)
  }

  lemma {:induction false} FirstDeliveryErrors(transfers: seq<Transfer>, after: nat, expectation: Expectation)
    ensures FirstDelivery(transfers, after, expectation).Err? ==>
      FirstDelivery(transfers, after, expectation).error.WordTooWide?
  {
    if transfers != [] {
      FirstDeliveryErrors(transfers[1..], after, expectation);
    }
  }

  /** A delivered message is the message expected: every word the same but for the host octet
      of the first. */
  lemma DeliveredUnchanged(t: Transfer, origin: seq<nat>)
    requires |origin| >= 2 && Narrow(origin) && Matches(t, ExpectationFor(origin)) == Ok(true)
    ensures Narrow(t.words) && |t.words| == |origin| && t.words[1..] == origin[1..] && t.words[2..] == origin[2..]
    ensures t.words[0] / 0x100 == origin[0] / 0x100
    ensures Comparison(ExpectationFor(origin), DecodeLeader(t.words)) == Observed
  {
    var (e, d) := (ExpectationFor(origin), DecodeLeader(t.words));
    TailNarrow(origin, 2);
    FingerprintInjective(t.words[2..], origin[2..]);
    assert forall i :: 0 <= i < FIELDS ==> !Contradicts(e.fields[i], d.fields[i]) && !Leaves(e.fields[i], d.fields[i]);
    assert !Contradicts(e.fields[TYPE], d.fields[TYPE]) && !Leaves(e.fields[TYPE], d.fields[TYPE]);
    assert !Contradicts(e.fields[LINK], d.fields[LINK]) && !Leaves(e.fields[LINK], d.fields[LINK]);
    assert !Contradicts(e.fields[SUBTYPE], d.fields[SUBTYPE]) && !Leaves(e.fields[SUBTYPE], d.fields[SUBTYPE]);
    LeaderRecovered(t.words, origin);
    assert t.words == [t.words[0], t.words[1]] + t.words[2..] && origin == [origin[0], origin[1]] + origin[2..];
  }

  // ----- observations -----

  function Decimal(n: nat): string {
    if n < 10 then [(n as char) + '0'] else Decimal(n / 10) + [((n % 10) as char) + '0']
  }

  function ObservationId(b: Boundary): string {
    "observation:" + (if b.leg.Request? then "request:" else "reply:") + Decimal(b.position)
  }

  /** What a transfer shows at a boundary of its own IMP. */
  function Direct(journey: string, t: Transfer, b: Boundary, decoded: Decoded, expectation: Expectation, source: string,
                  revision: Option<string>): Observation {
    Observation(ObservationId(b), journey, KeyOf(b), t.sequence, decoded, expectation.fingerprint,
                Provenance("source:" + source, "h316-hi-mi-trace", revision), Some(t.tick))
  }

  /** A receive by the connected IMP is what shows the host's egress. */
  function PeerEgress(journey: string, t: Transfer, b: Boundary, decoded: Decoded, expectation: Expectation,
                      receiver: string, revision: Option<string>): Observation {
    Observation(ObservationId(b), journey, KeyOf(b), t.sequence, decoded, expectation.fingerprint,
                Provenance("source:" + receiver + ":connected-peer", "h316-connected-peer-delivery", revision),
                Some(t.tick))
  }

  /** The adapter takes complete transfers whose action suits the boundary's direction. */
  predicate Adapts(t: Transfer, b: Boundary) {
    t.complete && t.action == if b.direction.Ingress? then Received else Sent
  }

  predicate PeerAdapts(t: Transfer, b: Boundary) { t.action.Received? && b.direction.Egress? }

  /** The boundaries of one leg, in order. */
  function OfLeg(bs: seq<Boundary>, leg: Leg): seq<Boundary> {
    if bs == [] then []
    else OfLeg(bs[..|bs| - 1], leg) + if bs[|bs| - 1].leg == leg then [bs[|bs| - 1]] else []
  }

  lemma {:induction false} OfLegAll(bs: seq<Boundary>, leg: Leg)
    ensures (forall i :: 0 <= i < |bs| ==> bs[i].leg == leg) ==> OfLeg(bs, leg) == bs
    ensures (forall i :: 0 <= i < |bs| ==> bs[i].leg != leg) ==> OfLeg(bs, leg) == []
  {
    if bs != [] {
      OfLegAll(bs[..|bs| - 1], leg);
    }
  }

  lemma {:induction false} OfLegConcat(a: seq<Boundary>, b: seq<Boundary>, leg: Leg)
    ensures OfLeg(a + b, leg) == OfLeg(a, leg) + OfLeg(b, leg)
  {
    if b == [] {
      assert a + b == a;
    } else {
      assert (a + b)[..|a + b| - 1] == a + b[..|b| - 1];
      OfLegConcat(a, b[..|b| - 1], leg);
    }
  }

  /** A mirrored route is its request half and its reply half. */
  lemma Halves(bs: seq<Boundary>, half: nat)
    requires Mirrored(bs, half)
    ensures OfLeg(bs, Request) == bs[..half] && OfLeg(bs, Reply) == bs[half..]
  {
    var (a, b) := (bs[..half], bs[half..]);
    LegsOfHalves(bs, half);
    hide Mirrored, OfLeg;
    assert bs == a + b;
    OfLegConcat(a, b, Request);
    OfLegConcat(a, b, Reply);
    OfLegAll(a, Request);
    OfLegAll(b, Request);
    OfLegAll(a, Reply);
    OfLegAll(b, Reply);
  }

  lemma LegsOfHalves(bs: seq<Boundary>, half: nat)
    requires Mirrored(bs, half)
    ensures forall i :: 0 <= i < half ==> bs[..half][i].leg == Request
    ensures forall i :: 0 <= i < half ==> bs[half..][i].leg == Reply
  {
    forall i | 0 <= i < half ensures bs[..half][i].leg == Request && bs[half..][i].leg == Reply {
      assert MirroredAt(bs, half, i);
    }
  }

  /** Along a leg messages leave and enter by turns. */
  predicate Alternates(bs: seq<Boundary>) { forall i :: 0 <= i < |bs| ==> (bs[i].direction.Egress? <==> i % 2 == 0) }

  predicate AllOf(bs: seq<Boundary>, leg: Leg) { forall i :: 0 <= i < |bs| ==> bs[i].leg == leg }

  /** The two legs of a route, `half` boundaries each. */
  predicate Legs(bs: seq<Boundary>, half: nat) {
    && |bs| == 2 * half && DistinctKeys(bs) && OfLeg(bs, Request) == bs[..half] && OfLeg(bs, Reply) == bs[half..]
    && AllOf(bs[..half], Request) && AllOf(bs[half..], Reply) && Alternates(bs[..half]) && Alternates(bs[half..])
  }

  lemma AheadAlternates(bs: seq<Boundary>, path: seq<string>)
    requires |path| >= 1 && |bs| == 4 * (|path| - 1)
    requires forall k :: 0 <= k < |path| - 1 ==> PairAlong(bs, path, k)
    ensures Alternates(bs[..2 * (|path| - 1)])
  {
    forall i | 0 <= i < 2 * (|path| - 1) ensures bs[i].direction.Egress? <==> i % 2 == 0 {
      assert PairAlong(bs, path, i / 2);
      assert i == 2 * (i / 2) || i == 2 * (i / 2) + 1;
    }
  }

  lemma BackAlternates(bs: seq<Boundary>, half: nat)
    requires Mirrored(bs, half) && half % 2 == 0 && Alternates(bs[..half])
    ensures Alternates(bs[half..])
  {
    forall i | 0 <= i < half ensures bs[half..][i].direction.Egress? <==> i % 2 == 0 {
      assert MirroredAt(bs, half, i);
      assert bs[..half][half - 1 - i].direction.Egress? <==> (half - 1 - i) % 2 == 0;
    }
  }

  /** The legs of an accepted route, and where they end. */
  lemma RouteLegs(t: Topology, route: string)
    requires Valid(t) && RouteBoundaries(t, route).Ok?
    ensures var (bs, path) := (RouteBoundaries(t, route).value, t.routes[route]);
      var half := 2 * (|path| - 1);
      && Legs(bs, half) && bs[half - 1].component == path[|path| - 1] && bs[half - 1].direction.Ingress?
      && bs[half..][half - 1].component == path[0] && bs[half..][half - 1].direction.Ingress?
  {
    RouteMirroring(t, route);
    RouteAlongPath(t, route);
    var (bs, path) := (RouteBoundaries(t, route).value, t.routes[route]);
    assert |path| >= 2;
    hide RouteBoundaries, OfLeg, DistinctKeys, Alternates, Valid;
    var half := 2 * (|path| - 1);
    Halves(bs, half);
    LegsOfHalves(bs, half);
    AheadAlternates(bs, path);
    BackAlternates(bs, half);
    hide Legs, MirroredAt, PairAlong;
    LegEnds(bs, path);
  }

  lemma LegEnds(bs: seq<Boundary>, path: seq<string>)
    requires |path| >= 2 && |bs| == 4 * (|path| - 1) && Mirrored(bs, 2 * (|path| - 1))
    requires forall k :: 0 <= k < |path| - 1 ==> PairAlong(bs, path, k)
    ensures var half := 2 * (|path| - 1);
      && bs[half - 1].component == path[|path| - 1] && bs[half - 1].direction.Ingress?
      && bs[half..][half - 1].component == path[0] && bs[half..][half - 1].direction.Ingress?
  {
    var half := 2 * (|path| - 1);
    assert PairAlong(bs, path, |path| - 2) && PairAlong(bs, path, 0);
    assert MirroredAt(bs, half, half - 1);
  }

  // ----- what coverage implies -----

  /** Each observation is at its own boundary of the route, and is as that boundary expects. */
  predicate Covering(expected: Expected, observations: seq<Observation>, places: seq<nat>) {
    && |places| == |observations|
    && (forall i :: 0 <= i < |places| ==> places[i] < |expected.boundaries|)
    && (forall i, j :: 0 <= i < j < |places| ==> places[i] != places[j])
    && forall i :: 0 <= i < |places| ==> AsExpected(expected, observations[i], expected.boundaries[places[i]])
  }

  predicate AsExpected(expected: Expected, o: Observation, b: Boundary) {
    o.key == KeyOf(b) && Comparison(ExpectationOf(expected, b.leg), o.decoded) == Observed
  }

  lemma {:induction false} CandidatesAt(expected: Expected, observations: seq<Observation>, places: seq<nat>, j: nat)
    requires DistinctKeys(expected.boundaries) && Covering(expected, observations, places) && j < |expected.boundaries|
    ensures j !in places ==> Candidates(observations, KeyOf(expected.boundaries[j])) == []
    ensures forall i :: 0 <= i < |places| && places[i] == j ==>
      Candidates(observations, KeyOf(expected.boundaries[j])) == [observations[i]]
  {
    hide KeyOf, Comparison;
    if observations != [] {
      var n := |observations| - 1;
      CandidatesAt(expected, observations[..n], places[..n], j);
      assert places == places[..n] + [places[n]];
      assert AsExpected(expected, observations[n], expected.boundaries[places[n]]);
      if places[n] != j {
        SameKeySamePlace(expected.boundaries, places[n], j);
      } else {
        assert j !in places[..n];
      }
    }
  }

  lemma SameKeySamePlace(bs: seq<Boundary>, i: nat, j: nat)
    requires DistinctKeys(bs) && i < |bs| && j < |bs| && i != j
    ensures KeyOf(bs[i]) != KeyOf(bs[j])
  {
    hide KeyOf;
    if i < j {
      assert KeyOf(bs[i]) != KeyOf(bs[j]);
    }
  }

  lemma CoveredIsObserved(expected: Expected, observations: seq<Observation>, places: seq<nat>, j: nat)
    requires DistinctKeys(expected.boundaries) && Covering(expected, observations, places) && j < |expected.boundaries|
    ensures Assess(expected, expected.boundaries[j], observations).condition == if j in places then Observed
      else Missing
  {
    hide Candidates, KeyOf, Comparison;
    CandidatesAt(expected, observations, places, j);
    if j in places {
      var i :| 0 <= i < |places| && places[i] == j;
      assert AsExpected(expected, observations[i], expected.boundaries[places[i]]);
    }
  }

  lemma {:induction false} FirstUnresolvedAt(assessments: seq<Assessment>, gap: nat)
    requires gap <= |assessments| && forall j :: 0 <= j < gap ==> assessments[j].condition.Observed?
    requires gap < |assessments| ==> !assessments[gap].condition.Observed?
    ensures FirstUnresolved(assessments) == if gap < |assessments| then Some(assessments[gap]) else None
  {
    if gap > 0 {
      FirstUnresolvedAt(assessments[1..], gap - 1);
    }
  }

  /** When the boundaries before `gap` are covered and `gap` is not, the diagnosis can only be
      that `gap` is the first missing boundary; when all are covered, that it is complete. */
  lemma ForcedDiagnosis(expected: Expected, observations: seq<Observation>, places: seq<nat>, gap: nat)
    requires DistinctKeys(expected.boundaries) && Covering(expected, observations, places)
    requires gap <= |expected.boundaries| && observations != []
    requires (forall j :: 0 <= j < gap ==> j in places) && gap !in places
    ensures var d := Diagnosed(expected, observations);
      if gap < |expected.boundaries| then d.state == MissingBoundary && d.first == Some(expected.boundaries[gap])
      else d.state == Complete && d.first == None
  {
    hide Assess, Covering, DistinctKeys;
    var assessments := Diagnosed(expected, observations).boundaries;
    forall j | 0 <= j < |assessments| ensures assessments[j].condition == if j in places then Observed else Missing {
      CoveredIsObserved(expected, observations, places, j);
    }
    FirstUnresolvedAt(assessments, gap);
    if gap < |expected.boundaries| {
      AssessedBoundary(expected, expected.boundaries[gap], observations);
    }
  }

  lemma AssessedBoundary(expected: Expected, b: Boundary, observations: seq<Observation>)
    ensures Assess(expected, b, observations).boundary == b
  {
  }
}
