/**
 Which messages the extractor of the formal journey finds, said about the places of the
 transfers in the traces: the first open request, the first control reply that the traces carry
 all the way, and of each guest the only message with those words.
 */
module DirectMeaning {
  import opened Wrappers
  import opened Digests
  import opened H316Trace
  import opened JourneyRoute
  import opened Journey
  import opened JourneyEvidence
  import opened EvidenceMeaning
  import opened DirectJourney
  import Ka10Trace
  import Imp11aTrace

  // ----- following one message -----

  /** The message is carried over the hop by the first transfers that carry it, and delivered
      under the number of `host`. */
  predicate CarriedBy(hi: Transfer, origin: seq<Transfer>, destination: seq<Transfer>, outLine: nat, atLine: nat,
                      host: nat, a: nat, b: nat, c: nat) {
    && FirstCarries(origin, a, hi.sequence, outLine, hi.words)
    && FirstArrives(destination, b, atLine, origin[a].words)
    && FirstDelivers(destination, c, destination[b].sequence, hi.words) && destination[c].words[0] % 0x100 == host
  }

  ghost predicate Carried(hi: Transfer, origin: seq<Transfer>, destination: seq<Transfer>, outLine: nat, atLine: nat,
                          host: nat) {
    exists a: nat, b: nat, c: nat :: CarriedBy(hi, origin, destination, outLine, atLine, host, a, b, c)
  }

  ghost predicate Along(p: LegPath, hi: Transfer, origin: seq<Transfer>, destination: seq<Transfer>, outLine: nat,
                        atLine: nat, host: nat) {
    exists a: nat, b: nat, c: nat ::
      && CarriedBy(hi, origin, destination, outLine, atLine, host, a, b, c)
      && p == LegPath(hi, origin[a], destination[b], destination[c])
  }

  lemma HopMeans(hi: Transfer, origin: seq<Transfer>, destination: seq<Transfer>, outLine: nat, atLine: nat, host: nat)
    requires |hi.words| >= 2 && Narrow(hi.words)
    ensures match Hop(hi, origin, destination, outLine, atLine, host)
      case Err(e) => e.WordTooWide? && SomeWide(destination)
      case Ok(None) => !Carried(hi, origin, destination, outLine, atLine, host)
      case Ok(Some(p)) => Along(p, hi, origin, destination, outLine, atLine, host)
  {
    HopErrors(hi, origin, destination, outLine, atLine, host);
    HopFinds(hi, origin, destination, outLine, atLine, host);
    hide Hop, CarriedBy, SomeWide, Along;
    if Carried(hi, origin, destination, outLine, atLine, host) {
      var a: nat, b: nat, c: nat :| CarriedBy(hi, origin, destination, outLine, atLine, host, a, b, c);
      CarriedIsFound(hi, origin, destination, outLine, atLine, host, a, b, c);
    }
  }

  lemma CarriedIsFound(hi: Transfer, origin: seq<Transfer>, destination: seq<Transfer>, outLine: nat, atLine: nat,
                       host: nat, a: nat, b: nat, c: nat)
    requires |hi.words| >= 2 && Narrow(hi.words)
    requires CarriedBy(hi, origin, destination, outLine, atLine, host, a, b, c)
    ensures Hop(hi, origin, destination, outLine, atLine, host) != Ok(None)
  {
    CarrierIs(origin, a, hi.sequence, outLine, hi.words);
    ArrivalIs(destination, b, atLine, origin[a].words);
    DeliveryIs(destination, c, destination[b].sequence, hi.words);
    hide FirstCarries, FirstArrives, FirstDelivers, FirstCarrier, FirstEqual, FirstDelivery, ExpectationFor, SomeWide;
  }

  lemma HopFinds(hi: Transfer, origin: seq<Transfer>, destination: seq<Transfer>, outLine: nat, atLine: nat, host: nat)
    requires |hi.words| >= 2 && Narrow(hi.words)
    ensures match Hop(hi, origin, destination, outLine, atLine, host)
      case Err(_) => SomeWide(destination)
      case Ok(None) => true
      case Ok(Some(p)) => Along(p, hi, origin, destination, outLine, atLine, host)
  {
    hide FirstCarrier, FirstEqual, FirstDelivery, FirstCarries, FirstArrives, FirstDelivers, ExpectationFor, SomeWide;
    hide CarriedBy;
    var originMi := FirstCarrier(origin, hi.sequence, outLine, hi.words);
    if originMi.Some? {
      var a := FindCarrier(origin, hi.sequence, outLine, hi.words);
      var destinationMi := FirstEqual(destination, atLine, originMi.value.words);
      if destinationMi.Some? {
        var b := FindArrival(destination, atLine, originMi.value.words);
        var c := FindDelivery(destination, destinationMi.value.sequence, hi.words);
        var found := FirstDelivery(destination, destinationMi.value.sequence, ExpectationFor(hi.words));
        if found.Ok? && found.value.Some? && destination[c].words[0] % 0x100 == host {
          LastHop(hi, origin, destination, outLine, atLine, host, a, b, c);
        }
      }
    }
  }

  lemma LastHop(hi: Transfer, origin: seq<Transfer>, destination: seq<Transfer>, outLine: nat, atLine: nat, host: nat,
                a: nat, b: nat, c: nat)
    requires FirstCarries(origin, a, hi.sequence, outLine, hi.words)
    requires FirstArrives(destination, b, atLine, origin[a].words)
    requires FirstDelivers(destination, c, destination[b].sequence, hi.words) && destination[c].words[0] % 0x100 == host
    ensures Along(LegPath(hi, origin[a], destination[b], destination[c]), hi, origin, destination, outLine, atLine,
                  host)
  {
    assert CarriedBy(hi, origin, destination, outLine, atLine, host, a, b, c);
    hide CarriedBy;
  }

  // ----- the request -----

  /** A control message for `host`, in octets. */
  predicate ControlMessage(t: Transfer, host: nat) {
    && HostMessage(t, Received) && |t.words| >= 5 && Fits(t.words)
    && t.words[0] == host && t.words[1] < 0x100 && t.words[2] % 0x100 == 8
  }

  predicate OpenRequest(t: Transfer) { ControlMessage(t, HOST_106) && t.words[4] % 0x100 == 1 }

  predicate ControlReply(t: Transfer) { ControlMessage(t, HOST_176) && t.words[3] > 0 }

  lemma ControlMeans(t: Transfer)
    ensures IsControl(t, HOST_106, true) == Ok(true) <==> OpenRequest(t)
    ensures IsControl(t, HOST_176, false) == Ok(true) <==> ControlReply(t)
    ensures IsControl(t, HOST_106, true).Err? || IsControl(t, HOST_176, false).Err? ==> !Fits(t.words)
    ensures IsControl(t, HOST_106, true).Err? ==> IsControl(t, HOST_106, true).error.WordTooWide?
    ensures IsControl(t, HOST_176, false).Err? ==> IsControl(t, HOST_176, false).error.WordTooWide?
  {
    NarrowFits(t.words);
    hide Narrow, Fits;
  }

  lemma WideHere(ts: seq<Transfer>, n: nat)
    requires n < |ts|
    ensures !Fits(ts[n].words) ==> SomeWide(ts)
  {
  }

  predicate FirstRequest(ts: seq<Transfer>, i: nat) {
    i < |ts| && OpenRequest(ts[i]) && forall k :: 0 <= k < i ==> !OpenRequest(ts[k])
  }

  lemma {:induction false} OpenFrom(ts: seq<Transfer>, n: nat) returns (i: nat)
    requires n <= |ts|
    ensures match FirstOpen(ts[n..])
      case Ok(Some(t)) => n <= i < |ts| && OpenRequest(ts[i]) && t == ts[i]
        && forall k :: n <= k < i ==> !OpenRequest(ts[k])
      case Ok(None) => forall k :: n <= k < |ts| ==> !OpenRequest(ts[k])
      case Err(e) => e.WordTooWide? && SomeWide(ts)
    decreases |ts| - n
  {
    hide OpenRequest, SomeWide, IsControl;
    i := n;
    if n < |ts| {
      ControlMeans(ts[n]);
      WideHere(ts, n);
      assert ts[n..][1..] == ts[n + 1..];
      var later := OpenFrom(ts, n + 1);
      if !OpenRequest(ts[n]) {
        i := later;
      }
    }
  }

  /** The request found is the first open request, carried to host 106. */
  ghost predicate RequestAlong(traces: Traces, line62: nat, line6: nat, i: nat, p: LegPath) {
    FirstRequest(traces.imp62, i) && Along(p, traces.imp62[i], traces.imp62, traces.imp6, line62, line6, HOST_176)
  }

  /** The first open request, if there is one, is not carried to host 106. */
  ghost predicate NoRequestCarried(traces: Traces, line62: nat, line6: nat) {
    forall i: nat :: FirstRequest(traces.imp62, i) ==>
      !Carried(traces.imp62[i], traces.imp62, traces.imp6, line62, line6, HOST_176)
  }

  lemma RequestMeans(traces: Traces, line62: nat, line6: nat) returns (i: nat)
    ensures match RequestPath(traces, line62, line6)
      case Ok(p) => RequestAlong(traces, line62, line6, i, p)
      case Err(e) =>
        || (e.NoRequest? && NoRequestCarried(traces, line62, line6))
        || (e.WordTooWide? && (SomeWide(traces.imp62) || SomeWide(traces.imp6)))
  {
    assert traces.imp62[0..] == traces.imp62;
    i := OpenFrom(traces.imp62, 0);
    FirstOpenLaw(traces.imp62);
    hide FirstOpen, Hop, OpenRequest, Carried, Along, SomeWide, IsControl;
    if FirstOpen(traces.imp62).Ok? && FirstOpen(traces.imp62).value.Some? {
      var hi := traces.imp62[i];
      HeadOfControl(hi);
      HopMeans(hi, traces.imp62, traces.imp6, line62, line6, HOST_176);
      forall k: nat | FirstRequest(traces.imp62, k) ensures k == i {
      }
    }
  }

  lemma HeadOfControl(t: Transfer)
    ensures OpenRequest(t) || ControlReply(t) ==> |t.words| >= 2 && Narrow(t.words)
  {
  }

  // ----- the reply -----

  ghost predicate IsReply(traces: Traces, line62: nat, line6: nat, after: nat, i: nat) {
    && i < |traces.imp6| && ControlReply(traces.imp6[i]) && traces.imp6[i].sequence > after
    && Carried(traces.imp6[i], traces.imp6, traces.imp62, line6, line62, HOST_106)
  }

  ghost predicate ReplyAlong(traces: Traces, line62: nat, line6: nat, after: nat, i: nat, p: LegPath) {
    && i < |traces.imp6| && ControlReply(traces.imp6[i]) && traces.imp6[i].sequence > after
    && Along(p, traces.imp6[i], traces.imp6, traces.imp62, line6, line62, HOST_106)
    && forall k :: 0 <= k < i ==> !IsReply(traces, line62, line6, after, k)
  }

  lemma {:induction false} ReplyFrom(traces: Traces, line62: nat, line6: nat, after: nat, n: nat) returns (i: nat)
    requires n <= |traces.imp6| && forall k :: 0 <= k < n ==> !IsReply(traces, line62, line6, after, k)
    ensures match ReplyPath(traces.imp6[n..], traces, line62, line6, after)
      case Ok(p) => ReplyAlong(traces, line62, line6, after, i, p)
      case Err(e) =>
        || (e.NoReply? && forall k: nat :: !IsReply(traces, line62, line6, after, k))
        || (e.WordTooWide? && (SomeWide(traces.imp6) || SomeWide(traces.imp62)))
    decreases |traces.imp6| - n
  {
    hide Carried, Along, ControlReply, Hop, SomeWide, IsControl;
    i := n;
    if n < |traces.imp6| {
      var hi := traces.imp6[n];
      ControlMeans(hi);
      WideHere(traces.imp6, n);
      HeadOfControl(hi);
      if IsControl(hi, HOST_176, false) == Ok(true) {
        HopMeans(hi, traces.imp6, traces.imp62, line6, line62, HOST_106);
        AlongIsCarried(hi, traces.imp6, traces.imp62, line6, line62, HOST_106);
      }
      assert traces.imp6[n..][1..] == traces.imp6[n + 1..];
      if !IsReply(traces, line62, line6, after, n) {
        i := ReplyFrom(traces, line62, line6, after, n + 1);
      }
    }
  }

  lemma AlongIsCarried(hi: Transfer, origin: seq<Transfer>, destination: seq<Transfer>, outLine: nat, atLine: nat,
                       host: nat)
    ensures forall p :: Along(p, hi, origin, destination, outLine, atLine, host) ==>
      Carried(hi, origin, destination, outLine, atLine, host)
  {
    hide CarriedBy;
  }

  // ----- the guests -----

  /** Message `i` is the only one of the trace that is in its short form exactly these words. */
  ghost predicate OnlyConsumed(messages: seq<Ka10Trace.InputMessage>, words: seq<nat>, i: nat)
    requires Ka10Proven(messages)
  {
    && i < |messages| && Normalized(messages[i]) == Some(words)
    && forall k :: 0 <= k < |messages| && Normalized(messages[k]) == Some(words) ==> k == i
  }

  ghost predicate OnlyStored(messages: seq<Imp11aTrace.InputMessage>, words: seq<nat>, i: nat) {
    && i < |messages| && WireWords(messages[i].words) == words
    && forall k :: 0 <= k < |messages| && WireWords(messages[k].words) == words ==> k == i
  }

  /** What is said of a consumed message: its number, and when its last word was read. */
  predicate TakenBy(taken: Intake, m: Ka10Trace.InputMessage) {
    && taken.source == "source:host106-imp" && taken.sequence == m.sequence
    && m.words != [] && taken.tick == m.words[|m.words| - 1].consumeTick
  }

  predicate StoredBy(taken: Intake, m: Imp11aTrace.InputMessage) {
    taken.source == "source:host176-imp" && taken.sequence == m.sequence && taken.tick == m.completeTick
  }

  lemma {:induction false} Ka10Places(messages: seq<Ka10Trace.InputMessage>, words: seq<nat>) returns (places: seq<nat>)
    requires Ka10Proven(messages)
    ensures |places| == |Ka10Candidates(messages, words)|
    ensures forall n :: 0 <= n < |places| ==>
      places[n] < |messages| && Ka10Candidates(messages, words)[n] == messages[places[n]]
    ensures forall n, m :: 0 <= n < m < |places| ==> places[n] < places[m]
    ensures forall i :: 0 <= i < |messages| ==> (i in places <==> Normalized(messages[i]) == Some(words))
  {
    hide Ka10Trace.Proven, Normalized;
    if messages == [] {
      places := [];
    } else {
      var n := |messages| - 1;
      places := Ka10Places(messages[..n], words);
      if Normalized(messages[n]) == Some(words) {
        places := places + [n];
      }
      forall i | 0 <= i < |messages| ensures i in places <==> Normalized(messages[i]) == Some(words) {
        if i < n {
          assert messages[..n][i] == messages[i];
        }
      }
    }
  }

  lemma {:induction false} Imp11aPlaces(messages: seq<Imp11aTrace.InputMessage>, words: seq<nat>)
    returns (places: seq<nat>)
    ensures |places| == |Imp11aCandidates(messages, words)|
    ensures forall n :: 0 <= n < |places| ==>
      places[n] < |messages| && Imp11aCandidates(messages, words)[n] == messages[places[n]]
    ensures forall n, m :: 0 <= n < m < |places| ==> places[n] < places[m]
    ensures forall i :: 0 <= i < |messages| ==> (i in places <==> WireWords(messages[i].words) == words)
  {
    hide WireWords;
    if messages == [] {
      places := [];
    } else {
      var n := |messages| - 1;
      places := Imp11aPlaces(messages[..n], words);
      if WireWords(messages[n].words) == words {
        places := places + [n];
      }
      forall i | 0 <= i < |messages| ensures i in places <==> WireWords(messages[i].words) == words {
        if i < n {
          assert messages[..n][i] == messages[i];
        }
      }
    }
  }

  /** A supplied trace of the KA10 contributes its only matching message; that there is not
      exactly one is the only error. */
  lemma ConsumedMeans(g: Guests, words: seq<nat>, revision: Option<string>)
    requires GuestsProven(g)
    ensures match RequestIntake(g, words, revision)
      case Ok(None) => g.ka10.None?
      case Ok(Some(taken)) => g.ka10.Some? && taken.words == words
        && exists i: nat :: OnlyConsumed(g.ka10.value, words, i) && TakenBy(taken, g.ka10.value[i])
      case Err(e) => e.NoGuestMessage? && g.ka10.Some? && forall i: nat :: !OnlyConsumed(g.ka10.value, words, i)
  {
    hide Ka10Trace.Proven, Normalized, Ka10Candidates, Lone;
    if g.ka10.Some? {
      var places := Ka10Places(g.ka10.value, words);
      OnePlace(places);
      if |places| == 1 {
        ProvenLength(Ka10Candidates(g.ka10.value, words)[0]);
        FirstIsLone(places);
        assert OnlyConsumed(g.ka10.value, words, places[0]);
      }
    }
  }

  /** ... and so does one of the IMP11-A. */
  lemma StoredMeans(g: Guests, words: seq<nat>, revision: Option<string>)
    ensures match ReplyIntake(g, words, revision)
      case Ok(None) => g.imp11a.None?
      case Ok(Some(taken)) => g.imp11a.Some? && taken.words == words
        && exists i: nat :: OnlyStored(g.imp11a.value, words, i) && StoredBy(taken, g.imp11a.value[i])
      case Err(e) => e.NoGuestMessage? && g.imp11a.Some? && forall i: nat :: !OnlyStored(g.imp11a.value, words, i)
  {
    hide WireWords, Imp11aCandidates, Lone;
    if g.imp11a.Some? {
      var places := Imp11aPlaces(g.imp11a.value, words);
      OnePlace(places);
      if |places| == 1 {
        FirstIsLone(places);
        assert OnlyStored(g.imp11a.value, words, places[0]);
      }
    }
  }

  predicate Lone(places: seq<nat>, i: nat) { i in places && forall n :: 0 <= n < |places| ==> places[n] == i }

  lemma OnePlace(places: seq<nat>)
    requires forall n, m :: 0 <= n < m < |places| ==> places[n] < places[m]
    ensures |places| == 1 <==> exists i :: i in places && Lone(places, i)
    ensures forall i: nat :: Lone(places, i) <==> i in places && forall k :: k in places ==> k == i
  {
    forall i: nat ensures Lone(places, i) <==> i in places && forall k :: k in places ==> k == i {
      LoneMeans(places, i);
    }
    hide Lone;
    if |places| == 1 {
      FirstIsLone(places);
    }
    if i :| i in places && Lone(places, i) {
      LoneIsOne(places, i);
    }
  }

  lemma LoneMeans(places: seq<nat>, i: nat)
    ensures Lone(places, i) <==> i in places && forall k :: k in places ==> k == i
  {
    if forall k :: k in places ==> k == i {
      forall n | 0 <= n < |places| ensures places[n] == i {
        assert places[n] in places;
      }
    }
  }

  lemma FirstIsLone(places: seq<nat>)
    requires |places| == 1
    ensures places[0] in places && Lone(places, places[0])
  {
  }

  lemma LoneIsOne(places: seq<nat>, i: nat)
    requires Lone(places, i) && forall n, m :: 0 <= n < m < |places| ==> places[n] < places[m]
    ensures |places| == 1
  {
    AllOne(places, i);
  }

  // ----- the extraction -----

  /** The extraction is of the first open request, of the first control reply to it that is
      carried, and stands on the only matching message of each supplied guest trace. */
  lemma ExtractionMeans(t: Topology, traces: Traces, line62: nat, line6: nat, g: Guests, revisions: Revisions)
    requires Valid(t) && GuestsProven(g)
    ensures match Extract(t, traces, line62, line6, g, revisions)
      case Ok(x) => exists i: nat, j: nat ::
        && RequestAlong(traces, line62, line6, i, x.request)
        && ReplyAlong(traces, line62, line6, x.request.destinationHi.sequence, j, x.reply)
      case Err(e) =>
        && (e.NoRequest? ==> NoRequestCarried(traces, line62, line6))
        && (e.NoReply? ==> exists i: nat, p ::
              RequestAlong(traces, line62, line6, i, p) && NoReplyTo(traces, line62, line6, p.destinationHi.sequence))
        && (e.WordTooWide? ==> SomeWide(traces.imp62) || SomeWide(traces.imp6))
  {
    var i := RequestMeans(traces, line62, line6);
    hide Concluded, RequestPath, ReplyPath, RouteBoundaries, SomeWide, RequestAlong, ReplyAlong, IsReply,
      NoRequestCarried;
    hide Ka10Proven, GuestsProven, RequestIntake, ReplyIntake, ExpectationFor, Followed;
    if ROUTE in t.routes && t.routes[ROUTE] == COMPONENTS && RequestPath(traces, line62, line6).Ok? {
      var request := RequestPath(traces, line62, line6).value;
      RequestFollowed(traces, line62, line6);
      var after := request.destinationHi.sequence;
      assert traces.imp6[0..] == traces.imp6;
      var j := ReplyFrom(traces, line62, line6, after, 0);
      if ReplyPath(traces.imp6, traces, line62, line6, after).Ok? {
        var reply := ReplyPath(traces.imp6, traces, line62, line6, after).value;
        ReplyFollowed(traces.imp6, traces, line62, line6, after);
        IntakesConclude(t, traces, request, reply, g, revisions);
      }
    }
  }

  ghost predicate NoReplyTo(traces: Traces, line62: nat, line6: nat, after: nat) {
    forall k: nat :: !IsReply(traces, line62, line6, after, k)
  }

  // ----- what the observations say -----

  function TraceOf(component: string): string { if component == "imp:62" then "imp62" else "imp6" }

  function TransferAt(p: LegPath, i: nat): Transfer
    requires i < 5
  {
    if i < 2 then p.originHi else if i == 2 then p.originMi else if i == 3 then p.destinationMi else p.destinationHi
  }

  /** The observation is of this boundary, by this transfer, out of the trace of the IMP it is at;
      the host's own egress is what the IMP next to it shows. */
  predicate Witnesses(o: Observation, b: Boundary, p: LegPath, i: nat, near: string, fingerprint: Digest,
                      revision: Option<string>)
    requires i < 5 && Readable(p)
  {
    && o.key == KeyOf(b) && o.journey == JOURNEY && o.fingerprint == fingerprint
    && o.sequence == TransferAt(p, i).sequence && o.tick == Some(TransferAt(p, i).tick)
    && o.decoded == DecodeLeader(if i < 3 then p.originHi.words else p.destinationHi.words)
    && o.provenance.revision == revision
    && o.provenance.id == (if i == 0 then "source:" + near + ":connected-peer" else "source:" + TraceOf(b.component))
  }

  /** The guest's own observation is of the boundary into it, by the message it took in. */
  predicate GuestWitnesses(o: Observation, b: Boundary, taken: Intake)
    requires IntakeReadable(taken)
  {
    && o.key == KeyOf(b) && o.journey == JOURNEY && o.sequence == taken.sequence && o.tick == Some(taken.tick)
    && o.decoded == DecodeLeader(taken.words) && o.fingerprint == BodyFingerprint(taken.words)
    && o.provenance.id == taken.source
  }

  predicate WitnessedAt(all: seq<Observation>, at: nat, bs: seq<Boundary>, from: nat, p: LegPath, near: string,
                        revision: Option<string>, i: nat)
    requires i < 5 && from + i < |bs| && at + i < |all| && Readable(p)
  {
    Witnesses(all[at + i], bs[from + i], p, i, near, ExpectationFor(p.originHi.words).fingerprint, revision)
  }

  /** One leg's part of the observations: five by the transfers of its path, and the guest's own. */
  predicate LegWitnessed(all: seq<Observation>, at: nat, bs: seq<Boundary>, from: nat, p: LegPath, near: string,
                         revision: Option<string>, taken: Option<Intake>) {
    && from + 6 <= |bs| && at + (if taken.Some? then 6 else 5) <= |all| && Readable(p)
    && (forall i: nat :: i < 5 ==> WitnessedAt(all, at, bs, from, p, near, revision, i))
    && (taken.Some? ==> IntakeReadable(taken.value) && GuestWitnesses(all[at + 5], bs[from + 5], taken.value))
  }

  lemma LegWitnesses(all: seq<Observation>, at: nat, bs: seq<Boundary>, from: nat, p: LegPath, near: string,
                     far: string, revision: Option<string>, taken: Option<Intake>)
    requires from + 6 <= |bs| && Readable(p) && (taken.Some? ==> IntakeReadable(taken.value))
    requires at + (if taken.Some? then 6 else 5) <= |all|
    requires all[at..at + if taken.Some? then 6 else 5] ==
      WholeLeg(bs[from..from + 6], p, near, far, revision, taken)
    requires TraceOf(bs[from + 1].component) == near && TraceOf(bs[from + 2].component) == near
    requires TraceOf(bs[from + 3].component) == far && TraceOf(bs[from + 4].component) == far
    ensures LegWitnessed(all, at, bs, from, p, near, revision, taken)
  {
    hide DecodeLeader, ExpectationFor, KeyOf, TraceOf, BodyFingerprint, Readable, IntakeReadable;
    var part := all[at..at + if taken.Some? then 6 else 5];
    forall i: nat | i < 5 ensures WitnessedAt(all, at, bs, from, p, near, revision, i) {
      assert part[i] == all[at + i];
    }
    assert taken.Some? ==> part[5] == all[at + 5];
  }

  /** Each observation of an extraction is of its own boundary, by the transfer of the path that
      crosses it, out of the trace of the IMP the boundary is at; those of the guests are by the
      messages they took in. */
  lemma ObservationsMean(t: Topology, traces: Traces, line62: nat, line6: nat, g: Guests, revisions: Revisions)
    requires Valid(t) && GuestsProven(g) && Extract(t, traces, line62, line6, g, revisions).Ok?
    ensures var x := Extract(t, traces, line62, line6, g, revisions).value;
      var (consumed, stored) := (RequestIntake(g, x.request.destinationHi.words, revisions.ka10),
                                 ReplyIntake(g, x.reply.destinationHi.words, revisions.imp11a));
      var n := if g.ka10.Some? then 6 else 5;
      && consumed.Ok? && stored.Ok?
      && (consumed.value.Some? <==> g.ka10.Some?) && (stored.value.Some? <==> g.imp11a.Some?)
      && |x.expected.boundaries| == 12 && |x.observations| == n + 5 + (if g.imp11a.Some? then 1 else 0)
      && LegWitnessed(x.observations, 0, x.expected.boundaries, 0, x.request, "imp62", revisions.h316, consumed.value)
      && LegWitnessed(x.observations, n, x.expected.boundaries, 6, x.reply, "imp6", revisions.h316, stored.value)
  {
    hide *;
    var x := Extract(t, traces, line62, line6, g, revisions).value;
    ExtractedParts(t, traces, line62, line6, g, revisions);
    var bs := x.expected.boundaries;
    RouteHalves(t, bs);
    HopComponents(t, bs);
    var consumed := RequestIntake(g, x.request.destinationHi.words, revisions.ka10).value;
    var stored := ReplyIntake(g, x.reply.destinationHi.words, revisions.imp11a).value;
    var n := if consumed.Some? then 6 else 5;
    assert bs[0..6] == bs[..6] && bs[6..12] == bs[6..];
    LegWitnesses(x.observations, 0, bs, 0, x.request, "imp62", "imp6", revisions.h316, consumed);
    LegWitnesses(x.observations, n, bs, 6, x.reply, "imp6", "imp62", revisions.h316, stored);
  }

  lemma RouteHalves(t: Topology, bs: seq<Boundary>)
    requires Valid(t) && ROUTE in t.routes && t.routes[ROUTE] == COMPONENTS && RouteBoundaries(t, ROUTE) == Ok(bs)
    ensures |bs| == 12 && OfLeg(bs, Request) == bs[..6] && OfLeg(bs, Reply) == bs[6..]
  {
    RouteLegs(t, ROUTE);
    LegsFacts(bs);
    hide *;
  }

  lemma ExtractedParts(t: Topology, traces: Traces, line62: nat, line6: nat, g: Guests, revisions: Revisions)
    requires Valid(t) && GuestsProven(g) && Extract(t, traces, line62, line6, g, revisions).Ok?
    ensures var x := Extract(t, traces, line62, line6, g, revisions).value;
      var (consumed, stored) := (RequestIntake(g, x.request.destinationHi.words, revisions.ka10),
                                 ReplyIntake(g, x.reply.destinationHi.words, revisions.imp11a));
      && ROUTE in t.routes && t.routes[ROUTE] == COMPONENTS && RouteBoundaries(t, ROUTE) == Ok(x.expected.boundaries)
      && Readable(x.request) && Readable(x.reply) && consumed.Ok? && stored.Ok?
      && (consumed.value.Some? <==> g.ka10.Some?) && (stored.value.Some? <==> g.imp11a.Some?)
      && (consumed.value.Some? ==> IntakeReadable(consumed.value.value))
      && (stored.value.Some? ==> IntakeReadable(stored.value.value))
      && |OfLeg(x.expected.boundaries, Request)| == 6 && |OfLeg(x.expected.boundaries, Reply)| == 6
      && x.observations ==
           WholeLeg(OfLeg(x.expected.boundaries, Request), x.request, "imp62", "imp6", revisions.h316, consumed.value)
           + WholeLeg(OfLeg(x.expected.boundaries, Reply), x.reply, "imp6", "imp62", revisions.h316, stored.value)
  {
    hide RequestPath, ReplyPath, RouteBoundaries, WholeLeg, LegAdapts, Diagnose, OfLeg, ExpectationFor, Followed;
    hide Ka10Proven, Ka10Candidates, Imp11aCandidates, GuestsProven, StoppedAt, FingerprintKept;
    var request := RequestPath(traces, line62, line6).value;
    RequestFollowed(traces, line62, line6);
    var after := request.destinationHi.sequence;
    ReplyFollowed(traces.imp6, traces, line62, line6, after);
    var reply := ReplyPath(traces.imp6, traces, line62, line6, after).value;
    IntakesConclude(t, traces, request, reply, g, revisions);
    FollowedHead(request, traces.imp62, traces.imp6, HOST_176);
    FollowedHead(reply, traces.imp6, traces.imp62, HOST_106);
    hide DecodeLeader;
  }

  lemma FollowedHead(p: LegPath, origin: seq<Transfer>, destination: seq<Transfer>, host: nat)
    requires Followed(p, origin, destination, host)
    ensures Readable(p)
  {
  }

  /** Where the boundaries of the direct route are. */
  lemma HopComponents(t: Topology, bs: seq<Boundary>)
    requires Valid(t) && ROUTE in t.routes && t.routes[ROUTE] == COMPONENTS && RouteBoundaries(t, ROUTE) == Ok(bs)
    ensures |bs| == 12
    ensures TraceOf(bs[1].component) == "imp62" && TraceOf(bs[2].component) == "imp62"
    ensures TraceOf(bs[3].component) == "imp6" && TraceOf(bs[4].component) == "imp6"
    ensures TraceOf(bs[6 + 1].component) == "imp6" && TraceOf(bs[6 + 2].component) == "imp6"
    ensures TraceOf(bs[6 + 3].component) == "imp62" && TraceOf(bs[6 + 4].component) == "imp62"
  {
    RouteMirroring(t, ROUTE);
    RouteAlongPath(t, ROUTE);
    hide RouteBoundaries, DistinctKeys;
    var path := COMPONENTS;
    assert path[1] == "imp:62" && path[2] == "imp:6";
    assert PairAlong(bs, path, 0) && PairAlong(bs, path, 1) && PairAlong(bs, path, 2);
    assert MirroredAt(bs, 6, 1) && MirroredAt(bs, 6, 2) && MirroredAt(bs, 6, 3) && MirroredAt(bs, 6, 4);
  }
}
