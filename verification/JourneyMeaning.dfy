/**
 What the reducer's answers mean, said about the observations themselves: when they are
 accepted, what each boundary's condition says, and which boundary the diagnosis names.
 */
module JourneyMeaning {
  import opened Wrappers
  import opened JourneyRoute
  import opened Journey
  import opened JourneyOrder

  // ----- the condition of a boundary -----

  predicate At(o: Observation, b: Boundary) {
    o.key.leg == b.leg && o.key.component == b.component && o.key.interface == b.interface
    && o.key.direction == b.direction
  }

  /** `i` is the one observation at the boundary. */
  predicate OnlyOne(observations: seq<Observation>, b: Boundary, i: nat) {
    i < |observations| && At(observations[i], b)
    && forall k :: 0 <= k < |observations| && At(observations[k], b) ==> k == i
  }

  predicate Several(observations: seq<Observation>, b: Boundary) {
    exists i, k :: 0 <= i < k < |observations| && At(observations[i], b) && At(observations[k], b)
  }

  /** Some field that is expected, and that was decoded, has another value. */
  predicate FieldDiffers(e: Expectation, m: Decoded) {
    exists f :: 0 <= f < FIELDS && DiffersIn(e.fields, m.fields, f)
  }

  predicate DiffersIn(e: Fields, m: Fields, f: nat)
    requires f < FIELDS
  {
    e[f].Some? && m[f].Some? && e[f].value != m[f].value
  }

  predicate FieldUnseen(e: Expectation, m: Decoded) {
    exists f :: 0 <= f < FIELDS && UnseenIn(e.fields, m.fields, f)
  }

  predicate UnseenIn(e: Fields, m: Fields, f: nat)
    requires f < FIELDS
  {
    e[f].Some? && m[f].None?
  }

  /** A known class that is not the expected one, or the expected class and a field that differs. */
  predicate Contradicted(e: Expectation, m: Decoded) {
    if m.messageClass == e.messageClass then FieldDiffers(e, m) else !m.messageClass.UnknownClass?
  }

  /** No known difference, and something expected that was not seen. */
  predicate Undecided(e: Expectation, m: Decoded) {
    if m.messageClass == e.messageClass then !FieldDiffers(e, m) && FieldUnseen(e, m) else m.messageClass.UnknownClass?
  }

  predicate Agrees(e: Expectation, m: Decoded) {
    && m.messageClass == e.messageClass
    && forall f :: 0 <= f < FIELDS && e.fields[f].Some? ==> m.fields[f] == e.fields[f]
  }

  function ExpectedOn(expected: Expected, b: Boundary): Expectation {
    match b.leg
    case Request => expected.request
    case Reply => expected.reply
  }

  lemma ComparisonMeans(e: Expectation, m: Decoded)
    ensures Comparison(e, m).Contradictory? <==> Contradicted(e, m)
    ensures Comparison(e, m).Ambiguous? <==> Undecided(e, m)
    ensures Comparison(e, m).Observed? <==> Agrees(e, m)
    ensures !Comparison(e, m).Missing?
  {
    forall f | 0 <= f < FIELDS
      ensures Contradicts(e.fields[f], m.fields[f]) <==> DiffersIn(e.fields, m.fields, f)
      ensures Leaves(e.fields[f], m.fields[f]) <==> UnseenIn(e.fields, m.fields, f)
    {
    }
  }

  /** The observations at a boundary are those whose keys are its own, in order. */
  lemma {:induction false} CandidatesMean(observations: seq<Observation>, b: Boundary) returns (places: seq<nat>)
    ensures |places| == |Candidates(observations, KeyOf(b))|
    ensures forall n :: 0 <= n < |places| ==>
      places[n] < |observations| && Candidates(observations, KeyOf(b))[n] == observations[places[n]]
    ensures forall n, m :: 0 <= n < m < |places| ==> places[n] < places[m]
    ensures forall i :: 0 <= i < |observations| ==> (i in places <==> At(observations[i], b))
  {
    if observations == [] {
      places := [];
    } else {
      hide Candidates, At, KeyOf;
      var n := |observations| - 1;
      places := CandidatesMean(observations[..n], b);
      CandidatesGrow(observations, b);
      if At(observations[n], b) {
        places := places + [n];
      }
      forall i | 0 <= i < |observations| ensures i in places <==> At(observations[i], b) {
        if i < n {
          assert observations[..n][i] == observations[i];
        }
      }
    }
  }

  lemma CandidatesGrow(observations: seq<Observation>, b: Boundary)
    requires observations != []
    ensures var n := |observations| - 1;
      Candidates(observations, KeyOf(b)) ==
        Candidates(observations[..n], KeyOf(b)) + if At(observations[n], b) then [observations[n]] else []
  {
  }

  /** The identifiers are those of the observations that are at the boundary, in order. */
  ghost predicate IdsAt(ids: seq<string>, observations: seq<Observation>, b: Boundary) {
    exists places: seq<nat> :: IdsOf(ids, observations, places)
      && forall i :: 0 <= i < |observations| ==> (i in places <==> At(observations[i], b))
  }

  ghost predicate IdsOnLeg(ids: seq<string>, observations: seq<Observation>, leg: Leg) {
    exists places: seq<nat> :: IdsOf(ids, observations, places)
      && forall i :: 0 <= i < |observations| ==> (i in places <==> observations[i].key.leg == leg)
  }

  ghost predicate IdsOf(ids: seq<string>, observations: seq<Observation>, places: seq<nat>) {
    && |places| == |ids| && (forall n, m :: 0 <= n < m < |places| ==> places[n] < places[m])
    && forall n :: 0 <= n < |ids| ==> places[n] < |observations| && ids[n] == observations[places[n]].id
  }

  lemma {:induction false} LegIdsMean(observations: seq<Observation>, leg: Leg) returns (places: seq<nat>)
    ensures IdsOf(LegIds(observations, leg), observations, places)
    ensures forall i :: 0 <= i < |observations| ==> (i in places <==> observations[i].key.leg == leg)
  {
    if observations == [] {
      places := [];
    } else {
      var n := |observations| - 1;
      places := LegIdsMean(observations[..n], leg);
      if observations[n].key.leg == leg {
        places := places + [n];
      }
      forall i | 0 <= i < |observations| ensures i in places <==> observations[i].key.leg == leg {
        if i < n {
          assert observations[..n][i] == observations[i];
        }
      }
    }
  }

  /** What one boundary's assessment says of the observations. */
  ghost predicate Says(a: Assessment, expected: Expected, b: Boundary, observations: seq<Observation>) {
    && a.boundary == b
    && (a.condition.Missing? <==> forall i :: 0 <= i < |observations| ==> !At(observations[i], b))
    && (a.condition.Contradictory? <==>
          exists i: nat ::
            OnlyOne(observations, b, i) && Contradicted(ExpectedOn(expected, b), observations[i].decoded))
    && (a.condition.Ambiguous? <==>
          || Several(observations, b)
          || (exists i: nat ::
                OnlyOne(observations, b, i) && Undecided(ExpectedOn(expected, b), observations[i].decoded)))
    && (a.condition.Observed? <==>
          exists i: nat :: OnlyOne(observations, b, i) && Agrees(ExpectedOn(expected, b), observations[i].decoded))
    && (if a.condition.Missing? then IdsOnLeg(a.support, observations, b.leg) else IdsAt(a.support, observations, b))
  }

  lemma AssessMeans(expected: Expected, b: Boundary, observations: seq<Observation>)
    ensures Says(Assess(expected, b, observations), expected, b, observations)
  {
    hide Comparison, Contradicted, Undecided, Agrees;
    var candidates := Candidates(observations, KeyOf(b));
    var places := CandidatesMean(observations, b);
    if candidates == [] {
      var onLeg := LegIdsMean(observations, b.leg);
      assert forall i :: 0 <= i < |observations| ==> !At(observations[i], b);
      assert IdsOnLeg(LegIds(observations, b.leg), observations, b.leg);
      hide At;
    } else {
      var first := places[0];
      assert first in places && At(observations[first], b);
      assert IdsOf(Ids(candidates), observations, places);
      if |candidates| > 1 {
        assert places[1] in places;
        hide At;
        assert Several(observations, b);
      } else {
        hide At;
        assert OnlyOne(observations, b, first) && !Several(observations, b);
        ComparisonMeans(ExpectationOf(expected, b.leg), observations[first].decoded);
      }
    }
  }

  // ----- the diagnosis -----

  /** What the diagnosis says: every boundary as above, and the first one not observed. */
  ghost predicate DiagnosisSays(d: Diagnosis, expected: Expected, observations: seq<Observation>) {
    var bs := expected.boundaries;
    && d.journey == expected.id && |d.support| == |observations|
    && (forall i :: 0 <= i < |observations| ==> d.support[i] == observations[i].id)
    && |d.boundaries| == |bs| && (forall j :: 0 <= j < |bs| ==> Says(d.boundaries[j], expected, bs[j], observations))
    && FirstSays(d, bs, observations != [])
  }

  ghost predicate FirstSays(d: Diagnosis, bs: seq<Boundary>, any: bool)
    requires |d.boundaries| == |bs|
  {
    match d.first
    case None => d.state.Complete? && forall j :: 0 <= j < |bs| ==> d.boundaries[j].condition.Observed?
    case Some(b) =>
      exists j: nat :: FirstOpen(d.boundaries, j) && b == bs[j] && d.state == Names(d.boundaries[j].condition, any)
  }

  predicate FirstOpen(assessments: seq<Assessment>, j: nat) {
    && j < |assessments| && !assessments[j].condition.Observed?
    && forall k :: 0 <= k < j ==> assessments[k].condition.Observed?
  }

  /** The state is named after the condition of that boundary. */
  function Names(condition: Condition, any: bool): State {
    match condition
    case Observed => Complete
    case Missing => if any then MissingBoundary else UnknownJourney
    case Contradictory => ContradictoryBoundary
    case Ambiguous => AmbiguousJourney
  }

  lemma {:induction false} FirstUnresolvedMeans(assessments: seq<Assessment>)
    ensures FirstUnresolved(assessments).None? <==>
      forall j :: 0 <= j < |assessments| ==> assessments[j].condition.Observed?
    ensures FirstUnresolved(assessments).Some? ==>
      exists j: nat :: FirstOpen(assessments, j) && FirstUnresolved(assessments).value == assessments[j]
  {
    if assessments != [] && assessments[0].condition.Observed? {
      var rest := assessments[1..];
      FirstUnresolvedMeans(rest);
      assert forall j :: 0 <= j < |rest| ==> rest[j] == assessments[j + 1];
      assert FirstUnresolved(assessments) == FirstUnresolved(rest);
      if FirstUnresolved(rest).Some? {
        var j: nat :| FirstOpen(rest, j) && FirstUnresolved(rest).value == rest[j];
        assert FirstOpen(assessments, j + 1);
      } else {
        forall j | 0 <= j < |assessments| ensures assessments[j].condition.Observed? {
          if j > 0 { assert rest[j - 1] == assessments[j]; }
        }
      }
    } else if assessments != [] {
      assert FirstOpen(assessments, 0);
    }
  }

  lemma DiagnosisMeans(t: Topology, expected: Expected, observations: seq<Observation>)
    requires Valid(t) && Diagnose(t, expected, observations).Ok?
    ensures DiagnosisSays(Diagnose(t, expected, observations).value, expected, observations)
  {
    var (d, bs) := (Diagnose(t, expected, observations).value, expected.boundaries);
    assert d == Diagnosed(expected, observations);
    hide Diagnose, Says, Candidates, LegIds, Comparison;
    forall j | 0 <= j < |bs| ensures Says(d.boundaries[j], expected, bs[j], observations) {
      AssessMeans(expected, bs[j], observations);
    }
    hide Assess, FirstUnresolved;
    FirstUnresolvedMeans(d.boundaries);
    FirstMeans(expected, observations, d);
  }

  lemma FirstMeans(expected: Expected, observations: seq<Observation>, d: Diagnosis)
    requires d == Diagnosed(expected, observations)
    ensures FirstSays(d, expected.boundaries, observations != [])
  {
    hide Assess, FirstUnresolved;
    FirstUnresolvedMeans(d.boundaries);
    AssessedBoundaries(expected, observations);
    if d.first.Some? {
      var j: nat :| FirstOpen(d.boundaries, j) && FirstUnresolved(d.boundaries).value == d.boundaries[j];
    }
  }

  lemma AssessedBoundaries(expected: Expected, observations: seq<Observation>)
    ensures forall b :: Assess(expected, b, observations).boundary == b
  {
  }

  // ----- acceptance -----

  /** What an observation must be by itself. */
  predicate Genuine(t: Topology, expected: Expected, o: Observation) {
    && o.journey == expected.id
    && o.fingerprint == (match o.key.leg
                          case Request => expected.request.fingerprint
                          case Reply => expected.reply.fingerprint)
    && o.key.component in t.components && o.key.interface in t.owners && t.owners[o.key.interface] == o.key.component
  }

  predicate OnRoute(expected: Expected, o: Observation) {
    exists j :: 0 <= j < |expected.boundaries| && At(o, expected.boundaries[j])
  }

  /** `k` is earlier in the order of one source that made both. */
  predicate Earlier(observations: seq<Observation>, k: nat, i: nat) {
    k < i < |observations| && observations[k].provenance.id == observations[i].provenance.id
  }

  predicate JustBefore(observations: seq<Observation>, k: nat, i: nat) {
    Earlier(observations, k, i) && forall m :: k < m < i ==> !Earlier(observations, m, i)
  }

  /** The crossing of `a` is not further along the route than that of `b`. */
  predicate NotPast(expected: Expected, a: Observation, b: Observation) {
    var bs := expected.boundaries;
    a.key.leg == b.key.leg ==>
      forall m, n :: 0 <= m < |bs| && 0 <= n < |bs| && At(a, bs[m]) && At(b, bs[n]) ==>
        bs[m].position <= bs[n].position
  }

  ghost predicate InOrder(expected: Expected, observations: seq<Observation>, i: nat)
    requires i < |observations|
  {
    && (forall k: nat :: Earlier(observations, k, i) ==>
          && observations[k].provenance == observations[i].provenance
          && observations[k].sequence < observations[i].sequence
          && NotPast(expected, observations[k], observations[i]))
    && (forall k: nat :: JustBefore(observations, k, i) && observations[k].tick.Some? && observations[i].tick.Some? ==>
          observations[k].tick.value <= observations[i].tick.value)
  }

  /** Everything acceptance asks, observation by observation. */
  ghost predicate Accepted(t: Topology, expected: Expected, observations: seq<Observation>) {
    forall i :: 0 <= i < |observations| ==>
      && Genuine(t, expected, observations[i]) && OnRoute(expected, observations[i])
      && NewId(observations[..i], observations[i].id) && InOrder(expected, observations, i)
  }

  lemma {:induction false} BoundaryForMeans(boundaries: seq<Boundary>, o: Observation)
    ensures BoundaryFor(boundaries, o.key).Some? <==> exists j :: 0 <= j < |boundaries| && At(o, boundaries[j])
    ensures BoundaryFor(boundaries, o.key).Some? ==>
      exists j :: 0 <= j < |boundaries| && At(o, boundaries[j]) && BoundaryFor(boundaries, o.key) == Some(boundaries[j])
  {
    if boundaries != [] {
      var rest := boundaries[..|boundaries| - 1];
      BoundaryForMeans(rest, o);
      assert forall j :: 0 <= j < |rest| ==> rest[j] == boundaries[j];
      assert At(o, boundaries[|boundaries| - 1]) <==> KeyOf(boundaries[|boundaries| - 1]) == o.key;
    }
  }

  /** With distinct keys, positions compare as the boundaries do. */
  lemma NotPastMeans(expected: Expected, a: Observation, b: Observation)
    requires DistinctKeys(expected.boundaries) && OnRoute(expected, a) && OnRoute(expected, b) && a.key.leg == b.key.leg
    ensures PositionOf(expected, a.key).Some? && PositionOf(expected, b.key).Some?
    ensures NotPast(expected, a, b) <==> PositionOf(expected, a.key).value <= PositionOf(expected, b.key).value
  {
    var bs := expected.boundaries;
    BoundaryForMeans(bs, a);
    BoundaryForMeans(bs, b);
    hide BoundaryFor;
    var m :| 0 <= m < |bs| && At(a, bs[m]) && BoundaryFor(bs, a.key) == Some(bs[m]);
    var n :| 0 <= n < |bs| && At(b, bs[n]) && BoundaryFor(bs, b.key) == Some(bs[n]);
    forall j | 0 <= j < |bs| ensures (At(a, bs[j]) ==> j == m) && (At(b, bs[j]) ==> j == n) {
      assert At(a, bs[j]) ==> KeyOf(bs[j]) == KeyOf(bs[m]);
      assert At(b, bs[j]) ==> KeyOf(bs[j]) == KeyOf(bs[n]);
    }
  }

  /** What one source emitted, by places in the whole. */
  lemma {:induction false} OwnPlaces(observations: seq<Observation>, source: string) returns (places: seq<nat>)
    ensures |places| == |OfSource(observations, source)|
    ensures forall n :: 0 <= n < |places| ==>
      places[n] < |observations| && OfSource(observations, source)[n] == observations[places[n]]
    ensures forall n, m :: 0 <= n < m < |places| ==> places[n] < places[m]
    ensures forall i :: 0 <= i < |observations| ==> (i in places <==> observations[i].provenance.id == source)
  {
    if observations == [] {
      places := [];
    } else {
      var n := |observations| - 1;
      places := OwnPlaces(observations[..n], source);
      if observations[n].provenance.id == source {
        places := places + [n];
      }
      forall i | 0 <= i < |observations| ensures i in places <==> observations[i].provenance.id == source {
        if i < n {
          assert observations[..n][i] == observations[i];
        }
      }
    }
  }

  /** The position remembered for a leg is that of the source's last observation on it. */
  lemma {:induction false} LastPositionMeans(expected: Expected, own: seq<Observation>, leg: Leg) returns (m: int)
    requires forall n :: 0 <= n < |own| ==> PositionOf(expected, own[n].key).Some?
    ensures -1 <= m < |own| && (LastPosition(expected, own, leg).None? <==> m == -1)
    ensures m >= 0 ==> own[m].key.leg == leg && LastPosition(expected, own, leg) == PositionOf(expected, own[m].key)
    ensures forall n :: m < n < |own| ==> own[n].key.leg != leg
  {
    hide PositionOf;
    if own == [] {
      m := -1;
    } else if own[|own| - 1].key.leg == leg {
      m := |own| - 1;
    } else {
      m := LastPositionMeans(expected, own[..|own| - 1], leg);
    }
  }

  lemma AllPlaced(expected: Expected, observations: seq<Observation>)
    requires forall i :: 0 <= i < |observations| ==> OnRoute(expected, observations[i])
    ensures forall i :: 0 <= i < |observations| ==> PositionOf(expected, observations[i].key).Some?
  {
    forall i | 0 <= i < |observations| ensures PositionOf(expected, observations[i].key).Some? {
      BoundaryForMeans(expected.boundaries, observations[i]);
      hide BoundaryFor;
    }
  }

  /** A source's further observation follows what it emitted exactly when it is in order. */
  lemma FollowsMeans(t: Topology, expected: Expected, rest: seq<Observation>, o: Observation)
    requires Accepted(t, expected, rest) && OnRoute(expected, o) && DistinctKeys(expected.boundaries)
    ensures InOrder(expected, rest + [o], |rest|) <==>
      JourneyOrder.Follows(expected, OfSource(rest, o.provenance.id), o)
  {
    var (all, own) := (rest + [o], OfSource(rest, o.provenance.id));
    var places := OwnPlaces(rest, o.provenance.id);
    EarlierPlaces(rest, o, places);
    AllPlaced(expected, rest);
    forall n | 0 <= n < |own| ensures PositionOf(expected, own[n].key).Some? {
      assert own[n] == rest[places[n]];
    }
    hide *;
    if own == [] {
      NoneEarlier(expected, all, |rest|, o);
    } else {
      var m := LastPositionMeans(expected, own, o.key.leg);
      JustBeforeLast(all, rest, o, places);
      RestOnRoute(t, expected, rest);
      if InOrder(expected, all, |rest|) {
        InOrderFollows(expected, all, rest, o, own, places, m);
      }
      if JourneyOrder.Follows(expected, own, o) {
        FollowsInOrder(t, expected, all, rest, o, own, places, m);
      }
    }
  }

  lemma RestOnRoute(t: Topology, expected: Expected, rest: seq<Observation>)
    requires Accepted(t, expected, rest)
    ensures forall n :: 0 <= n < |rest| ==> OnRoute(expected, rest[n])
  {
    hide OnRoute, Genuine, InOrder;
  }

  lemma NoneEarlier(expected: Expected, all: seq<Observation>, i: nat, o: Observation)
    requires i < |all| && forall k: nat :: !Earlier(all, k, i)
    ensures InOrder(expected, all, i) && JourneyOrder.Follows(expected, [], o)
  {
  }

  lemma EarlierPlaces(rest: seq<Observation>, o: Observation, places: seq<nat>)
    requires forall n :: 0 <= n < |places| ==> places[n] < |rest|
    requires forall i :: 0 <= i < |rest| ==> (i in places <==> rest[i].provenance.id == o.provenance.id)
    ensures forall k: nat :: Earlier(rest + [o], k, |rest|) <==> k in places
  {
    forall k: nat ensures Earlier(rest + [o], k, |rest|) <==> k in places {
      if k in places {
        var n :| 0 <= n < |places| && places[n] == k;
      }
    }
  }

  lemma JustBeforeLast(all: seq<Observation>, rest: seq<Observation>, o: Observation, places: seq<nat>)
    requires all == rest + [o] && places != [] && forall n, m :: 0 <= n < m < |places| ==> places[n] < places[m]
    requires forall k: nat :: Earlier(all, k, |rest|) <==> k in places
    ensures forall k: nat :: JustBefore(all, k, |rest|) <==> k == places[|places| - 1]
  {
    var last := places[|places| - 1];
    assert last in places;
    forall k: nat ensures JustBefore(all, k, |rest|) <==> k == last {
      if k in places {
        var n :| 0 <= n < |places| && places[n] == k;
        assert k <= last;
      }
    }
  }

  lemma InOrderFollows(expected: Expected, all: seq<Observation>, rest: seq<Observation>, o: Observation,
                       own: seq<Observation>, places: seq<nat>, m: int)
    requires all == rest + [o] && own != [] && |places| == |own| && -1 <= m < |own|
    requires forall n :: 0 <= n < |places| ==> places[n] < |rest| && own[n] == rest[places[n]]
    requires forall k: nat :: Earlier(all, k, |rest|) <==> k in places
    requires forall k: nat :: JustBefore(all, k, |rest|) <==> k == places[|places| - 1]
    requires LastPosition(expected, own, o.key.leg).None? <==> m == -1
    requires m >= 0 ==>
      own[m].key.leg == o.key.leg && LastPosition(expected, own, o.key.leg) == PositionOf(expected, own[m].key)
    requires OnRoute(expected, o) && DistinctKeys(expected.boundaries)
    requires forall n :: 0 <= n < |rest| ==> OnRoute(expected, rest[n])
    requires InOrder(expected, all, |rest|)
    ensures JourneyOrder.Follows(expected, own, o)
  {
    var last := places[|places| - 1];
    assert last in places && Earlier(all, last, |rest|) && all[last] == own[|own| - 1] && all[|rest|] == o;
    assert JustBefore(all, last, |rest|);
    hide LastPosition, PositionOf, NotPast, DistinctKeys;
    if m >= 0 {
      assert places[m] in places && Earlier(all, places[m], |rest|) && all[places[m]] == own[m];
      NotPastMeans(expected, own[m], o);
    }
  }

  lemma NotPastOnward(expected: Expected, a: Observation, b: Observation, c: Observation)
    requires DistinctKeys(expected.boundaries) && a.key.leg == b.key.leg == c.key.leg
    requires OnRoute(expected, a) && OnRoute(expected, b) && OnRoute(expected, c)
    requires NotPast(expected, a, b) && NotPast(expected, b, c)
    ensures NotPast(expected, a, c)
  {
    hide NotPast, PositionOf, DistinctKeys, OnRoute;
    NotPastMeans(expected, a, b);
    NotPastMeans(expected, b, c);
    NotPastMeans(expected, a, c);
  }

  lemma FollowsInOrder(t: Topology, expected: Expected, all: seq<Observation>, rest: seq<Observation>, o: Observation,
                       own: seq<Observation>, places: seq<nat>, m: int)
    requires all == rest + [o] && own != [] && |places| == |own| && -1 <= m < |own| && Accepted(t, expected, rest)
    requires forall n :: 0 <= n < |places| ==> places[n] < |rest| && own[n] == rest[places[n]]
    requires forall n, l :: 0 <= n < l < |places| ==> places[n] < places[l]
    requires forall k: nat :: Earlier(all, k, |rest|) <==> k in places
    requires forall k: nat :: JustBefore(all, k, |rest|) <==> k == places[|places| - 1]
    requires LastPosition(expected, own, o.key.leg).None? <==> m == -1
    requires m >= 0 ==>
      own[m].key.leg == o.key.leg && LastPosition(expected, own, o.key.leg) == PositionOf(expected, own[m].key)
    requires forall n :: m < n < |own| ==> own[n].key.leg != o.key.leg
    requires OnRoute(expected, o) && DistinctKeys(expected.boundaries)
    requires JourneyOrder.Follows(expected, own, o)
    ensures InOrder(expected, all, |rest|)
  {
    var last := places[|places| - 1];
    hide LastPosition, PositionOf, NotPast, DistinctKeys, OnRoute, Genuine;
    forall k: nat | Earlier(all, k, |rest|)
      ensures all[k].provenance == o.provenance && all[k].sequence < o.sequence && NotPast(expected, all[k], o)
    {
      var n :| 0 <= n < |places| && places[n] == k;
      assert all[k] == own[n] == rest[k] && all[last] == own[|own| - 1] == rest[last];
      if k != last {
        assert Earlier(all, last, |rest|);
        assert Earlier(rest, k, last) && InOrder(expected, rest, last);
      }
      if own[n].key.leg == o.key.leg {
        assert n <= m;
        NotPastMeans(expected, own[m], o);
        if n < m {
          assert Earlier(all, places[m], |rest|) by { assert places[m] in places; }
          assert Earlier(rest, k, places[m]) && InOrder(expected, rest, places[m]);
          NotPastOnward(expected, own[n], own[m], o);
        }
      } else {
        OtherLegs(expected, own[n], o);
      }
    }
  }

  lemma OtherLegs(expected: Expected, a: Observation, b: Observation)
    requires a.key.leg != b.key.leg
    ensures NotPast(expected, a, b)
  {
  }

  // ----- ... and as a whole -----

  lemma GenuineMeans(t: Topology, expected: Expected, o: Observation)
    ensures SingleError(t, expected, o).None? <==> Genuine(t, expected, o)
  {
  }

  lemma AcceptedStep(t: Topology, expected: Expected, rest: seq<Observation>, o: Observation)
    ensures Accepted(t, expected, rest + [o]) <==>
      && Accepted(t, expected, rest) && Genuine(t, expected, o) && OnRoute(expected, o) && NewId(rest, o.id)
      && InOrder(expected, rest + [o], |rest|)
  {
    hide Genuine, OnRoute, NewId, InOrder;
    var all := rest + [o];
    assert all[..|rest|] == rest;
    forall i | 0 <= i < |rest|
      ensures all[..i] == rest[..i] && (InOrder(expected, all, i) <==> InOrder(expected, rest, i))
    {
      InOrderPrefix(expected, rest, o, i);
    }
    if Accepted(t, expected, all) {
      forall i | 0 <= i < |rest|
        ensures Genuine(t, expected, rest[i]) && OnRoute(expected, rest[i]) && NewId(rest[..i], rest[i].id)
          && InOrder(expected, rest, i)
      {
        assert all[i] == rest[i];
      }
    }
  }

  lemma InOrderPrefix(expected: Expected, rest: seq<Observation>, o: Observation, i: nat)
    requires i < |rest|
    ensures InOrder(expected, rest + [o], i) <==> InOrder(expected, rest, i)
  {
    hide NotPast;
    var all := rest + [o];
    assert forall k: nat :: k < |rest| ==> all[k] == rest[k];
    assert forall k: nat, m: nat :: m < |rest| ==> (Earlier(all, k, m) <==> Earlier(rest, k, m));
    assert forall k: nat :: JustBefore(all, k, i) <==> JustBefore(rest, k, i);
  }

  /** On a route with distinct keys, the reducer's checks accept exactly what is accepted
      observation by observation. */
  lemma {:induction false} ChecksMean(t: Topology, expected: Expected, observations: seq<Observation>)
    requires DistinctKeys(expected.boundaries)
    ensures Check(t, expected, observations).Ok? && Placed(expected, observations) <==>
      Accepted(t, expected, observations)
  {
    CheckExactly(t, expected, observations);
    if observations == [] {
      NothingAcceptable(t, expected);
    } else {
      var (rest, o) := (observations[..|observations| - 1], observations[|observations| - 1]);
      ChecksMean(t, expected, rest);
      CheckExactly(t, expected, rest);
      AcceptableStep(t, expected, rest, o);
      AcceptedStep(t, expected, rest, o);
      assert rest + [o] == observations;
      GenuineMeans(t, expected, o);
      PlacedStep(expected, rest, o);
      if Accepted(t, expected, rest) && OnRoute(expected, o) {
        FollowsMeans(t, expected, rest, o);
      }
      hide *;
    }
  }

  lemma PlacedStep(expected: Expected, rest: seq<Observation>, o: Observation)
    ensures Placed(expected, rest + [o]) <==> Placed(expected, rest) && OnRoute(expected, o)
  {
    BoundaryForMeans(expected.boundaries, o);
    hide BoundaryFor;
    var all := rest + [o];
    assert forall i :: 0 <= i < |rest| ==> all[i] == rest[i];
    assert all[|rest|] == o;
  }

  /** The reducer accepts exactly these observations, for this topology and route. */
  lemma AcceptanceMeans(t: Topology, expected: Expected, observations: seq<Observation>)
    requires Valid(t)
    ensures Diagnose(t, expected, observations).Ok? <==>
      && t.id == expected.topology && RouteBoundaries(t, expected.route) == Ok(expected.boundaries)
      && Accepted(t, expected, observations)
  {
    hide RouteBoundaries, Check, Placed, Accepted, Diagnosed, DistinctKeys, Valid, Mirrored;
    if RouteBoundaries(t, expected.route) == Ok(expected.boundaries) {
      RouteMirroring(t, expected.route);
      ChecksMean(t, expected, observations);
    }
  }
}
