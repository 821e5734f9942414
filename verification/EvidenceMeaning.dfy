/**
 What the searches of the path extractors find, said about the transfers themselves: at every
 hop the first transfer of its trace, in the trace's own order, that carries the message on.
 */
module EvidenceMeaning {
  import opened Wrappers
  import opened H316Trace
  import opened Journey
  import opened JourneyEvidence
  import JourneyMeaning

  // ----- single transfers -----

  /** A whole message from or to the attached host. */
  predicate HostMessage(t: Transfer, action: Action) {
    t.complete && !t.device.modem && t.device.line == 2 && t.action == action && |t.words| >= 2
  }

  predicate Fits(words: seq<nat>) { forall k :: 0 <= k < |words| ==> words[k] < 0x1_0000 }

  /** Sent on this line after `after`, with the host message literally in its place between two
      words in front, one behind the first, and one at the end. */
  predicate Carries(t: Transfer, after: nat, line: nat, host: seq<nat>) {
    && t.sequence > after && t.complete && t.device.modem && t.device.line == line && t.action.Sent?
    && |host| >= 2 && |t.words| == |host| + 4 && t.words[2] == host[0]
    && forall k :: 1 <= k < |host| ==> t.words[3 + k] == host[k]
  }

  predicate Arrives(t: Transfer, line: nat, words: seq<nat>) {
    t.complete && t.device.modem && t.device.line == line && t.action.Received? && t.words == words
  }

  /** Handed to the host after `after`: the same message but for the low octet of its first word. */
  predicate Delivers(t: Transfer, after: nat, origin: seq<nat>) {
    && t.sequence > after && HostMessage(t, Sent) && |t.words| == |origin| >= 2
    && t.words[0] / 0x100 == origin[0] / 0x100 && forall k :: 1 <= k < |origin| ==> t.words[k] == origin[k]
  }

  lemma CarriesMeans(t: Transfer, after: nat, line: nat, host: seq<nat>)
    ensures t.sequence > after && IsMi(t, Sent, line) && Contains(t.words, host) <==> Carries(t, after, line, host)
  {
    if |host| >= 2 && |t.words| == |host| + 4 {
      var inner := t.words[4..|t.words| - 1];
      assert |inner| == |host| - 1;
      forall k | 1 <= k < |host| ensures inner[k - 1] == t.words[3 + k] && host[1..][k - 1] == host[k] {
      }
      if forall k :: 1 <= k < |host| ==> t.words[3 + k] == host[k] {
        assert inner == host[1..];
      }
    }
  }

  lemma ArrivesMeans(t: Transfer, line: nat, words: seq<nat>)
    ensures IsMi(t, Received, line) && t.words == words <==> Arrives(t, line, words)
  {
  }

  /** The expectation made of a message is met by that message, whatever host it names, and by
      no other. */
  lemma MatchesMeans(t: Transfer, after: nat, origin: seq<nat>)
    requires |origin| >= 2 && Narrow(origin) && t.sequence > after && IsHi(t, Sent)
    ensures Matches(t, ExpectationFor(origin)) == Ok(true) <==> Delivers(t, after, origin)
    ensures Matches(t, ExpectationFor(origin)).Err? ==> !Narrow(t.words)
  {
    if Matches(t, ExpectationFor(origin)) == Ok(true) {
      DeliveredUnchanged(t, origin);
      forall k | 1 <= k < |origin| ensures t.words[k] == origin[k] {
        assert t.words[1..][k - 1] == origin[1..][k - 1];
      }
    }
    if Delivers(t, after, origin) {
      forall k | 0 <= k < |t.words| ensures t.words[k] <= 0xFFFF {
        assert k > 0 ==> t.words[k] == origin[k];
      }
      assert t.words[2..] == origin[2..];
      TailNarrow(t.words, 2);
      SameExpectation(t.words, origin);
    }
    if Matches(t, ExpectationFor(origin)).Err? && Narrow(t.words) {
      TailNarrow(t.words, 2);
    }
  }

  lemma SameExpectation(words: seq<nat>, origin: seq<nat>)
    requires |words| == |origin| >= 2 && Narrow(words) && Narrow(origin)
    requires words[0] / 0x100 == origin[0] / 0x100 && forall k :: 1 <= k < |origin| ==> words[k] == origin[k]
    ensures Comparison(ExpectationFor(origin), DecodeLeader(words)) == Observed
  {
    var (e, d) := (ExpectationFor(origin), DecodeLeader(words));
    hide BodyFingerprint;
    forall i | 0 <= i < FIELDS ensures !Contradicts(e.fields[i], d.fields[i]) && !Leaves(e.fields[i], d.fields[i]) {
    }
  }

  // ----- the first transfer that ... -----

  predicate FirstCarries(ts: seq<Transfer>, a: nat, after: nat, line: nat, host: seq<nat>) {
    a < |ts| && Carries(ts[a], after, line, host) && forall k :: 0 <= k < a ==> !Carries(ts[k], after, line, host)
  }

  predicate FirstArrives(ts: seq<Transfer>, b: nat, line: nat, words: seq<nat>) {
    b < |ts| && Arrives(ts[b], line, words) && forall k :: 0 <= k < b ==> !Arrives(ts[k], line, words)
  }

  predicate FirstDelivers(ts: seq<Transfer>, d: nat, after: nat, origin: seq<nat>) {
    d < |ts| && Delivers(ts[d], after, origin) && forall k :: 0 <= k < d ==> !Delivers(ts[k], after, origin)
  }

  /** Some word of some transfer is wider than sixteen bits. */
  predicate SomeWide(ts: seq<Transfer>) { exists k :: 0 <= k < |ts| && !Fits(ts[k].words) }

  lemma {:induction false} FindCarrier(ts: seq<Transfer>, after: nat, line: nat, host: seq<nat>) returns (a: nat)
    ensures FirstCarrier(ts, after, line, host).None? ==>
      forall k :: 0 <= k < |ts| ==> !Carries(ts[k], after, line, host)
    ensures FirstCarrier(ts, after, line, host).Some? ==>
      FirstCarries(ts, a, after, line, host) && FirstCarrier(ts, after, line, host).value == ts[a]
  {
    a := 0;
    if ts != [] {
      CarriesMeans(ts[0], after, line, host);
      hide Carries, IsMi, Contains;
      if !Carries(ts[0], after, line, host) {
        a := FindCarrier(ts[1..], after, line, host);
        assert forall k :: 0 < k < |ts| ==> ts[k] == ts[1..][k - 1];
        a := a + 1;
      }
    }
  }

  lemma {:induction false} FindArrival(ts: seq<Transfer>, line: nat, words: seq<nat>) returns (b: nat)
    ensures FirstEqual(ts, line, words).None? ==> forall k :: 0 <= k < |ts| ==> !Arrives(ts[k], line, words)
    ensures FirstEqual(ts, line, words).Some? ==>
      FirstArrives(ts, b, line, words) && FirstEqual(ts, line, words).value == ts[b]
  {
    b := 0;
    if ts != [] {
      ArrivesMeans(ts[0], line, words);
      hide Arrives, IsMi;
      if !Arrives(ts[0], line, words) {
        b := FindArrival(ts[1..], line, words);
        assert forall k :: 0 < k < |ts| ==> ts[k] == ts[1..][k - 1];
        b := b + 1;
      }
    }
  }

  lemma {:induction false} FindDelivery(ts: seq<Transfer>, after: nat, origin: seq<nat>) returns (d: nat)
    requires |origin| >= 2 && Narrow(origin)
    ensures var r := FirstDelivery(ts, after, ExpectationFor(origin));
      && (r.Err? ==> SomeWide(ts))
      && (r == Ok(None) ==> forall k :: 0 <= k < |ts| ==> !Delivers(ts[k], after, origin))
      && (r.Ok? && r.value.Some? ==> d < |ts| && FirstDelivers(ts, d, after, origin) && r.value.value == ts[d])
  {
    d := 0;
    if ts != [] {
      var (t, rest) := (ts[0], ts[1..]);
      if t.sequence > after && IsHi(t, Sent) {
        MatchesMeans(t, after, origin);
      }
      NarrowFits(t.words);
      NotHi(t, after, origin);
      hide Delivers, Matches, IsHi, ExpectationFor, Narrow, Fits;
      d := FindDelivery(rest, after, origin);
      assert forall k :: 0 < k < |ts| ==> ts[k] == rest[k - 1];
      if SomeWide(rest) {
        var k :| 0 <= k < |rest| && !Fits(rest[k].words);
        assert !Fits(ts[k + 1].words);
      }
      d := if t.sequence > after && IsHi(t, Sent) && Matches(t, ExpectationFor(origin)) == Ok(true) then 0 else d + 1;
    }
  }

  lemma NotHi(t: Transfer, after: nat, origin: seq<nat>)
    ensures !(t.sequence > after && IsHi(t, Sent)) ==> !Delivers(t, after, origin)
  {
  }

  lemma NarrowFits(words: seq<nat>)
    ensures Narrow(words) <==> Fits(words)
  {
  }

  // ----- ... and only that one -----

  lemma CarrierIs(ts: seq<Transfer>, a: nat, after: nat, line: nat, host: seq<nat>)
    requires FirstCarries(ts, a, after, line, host)
    ensures FirstCarrier(ts, after, line, host) == Some(ts[a])
  {
    var k := FindCarrier(ts, after, line, host);
    hide Carries, FirstCarrier;
  }

  lemma ArrivalIs(ts: seq<Transfer>, b: nat, line: nat, words: seq<nat>)
    requires FirstArrives(ts, b, line, words)
    ensures FirstEqual(ts, line, words) == Some(ts[b])
  {
    var k := FindArrival(ts, line, words);
    hide Arrives, FirstEqual;
  }

  lemma DeliveryIs(ts: seq<Transfer>, d: nat, after: nat, origin: seq<nat>)
    requires |origin| >= 2 && Narrow(origin) && FirstDelivers(ts, d, after, origin)
    ensures var r := FirstDelivery(ts, after, ExpectationFor(origin)); r == Ok(Some(ts[d])) || (r.Err? && SomeWide(ts))
  {
    var k := FindDelivery(ts, after, origin);
    hide Delivers, FirstDelivery, ExpectationFor, SomeWide;
  }
}
