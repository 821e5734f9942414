/**
 "Emission only, no global clock": the reducer relates two observations only when one source
 made both. Reordering observations of different sources changes nothing it concludes.
 */
module JourneyOrder {
  import opened Wrappers
  import opened JourneyRoute
  import opened Journey

  /** What one source emitted, in its own order. */
  function OfSource(observations: seq<Observation>, source: string): seq<Observation> {
    if observations == [] then []
    else
      var o := observations[|observations| - 1];
      OfSource(observations[..|observations| - 1], source) + if o.provenance.id == source then [o] else []
  }

  /** The same observations, with each source's own order kept. */
  ghost predicate Reordered(a: seq<Observation>, b: seq<Observation>) {
    forall source :: OfSource(a, source) == OfSource(b, source)
  }

  // ----- acceptance, source by source -----

  function LastPosition(expected: Expected, emitted: seq<Observation>, leg: Leg): Option<nat> {
    if emitted == [] then None
    else
      var o := emitted[|emitted| - 1];
      if o.key.leg == leg && PositionOf(expected, o.key).Some? then PositionOf(expected, o.key)
      else LastPosition(expected, emitted[..|emitted| - 1], leg)
  }

  /** How an observation may follow what its source emitted before. */
  predicate Follows(expected: Expected, before: seq<Observation>, o: Observation) {
    before != [] ==>
      var last := before[|before| - 1];
      && last.provenance == o.provenance && last.sequence < o.sequence
      && (last.tick.Some? && o.tick.Some? ==> last.tick.value <= o.tick.value)
      && (PositionOf(expected, o.key).Some? && LastPosition(expected, before, o.key.leg).Some? ==>
            LastPosition(expected, before, o.key.leg).value <= PositionOf(expected, o.key).value)
  }

  predicate SourceOk(expected: Expected, emitted: seq<Observation>) {
    emitted == [] ||
    (SourceOk(expected, emitted[..|emitted| - 1])
     && Follows(expected, emitted[..|emitted| - 1], emitted[|emitted| - 1]))
  }

  predicate DistinctIds(observations: seq<Observation>) {
    forall i, j :: 0 <= i < j < |observations| ==> observations[i].id != observations[j].id
  }

  predicate Singles(t: Topology, expected: Expected, observations: seq<Observation>) {
    forall i :: 0 <= i < |observations| ==> SingleError(t, expected, observations[i]).None?
  }

  /** Acceptance without any order across sources. */
  ghost predicate Acceptable(t: Topology, expected: Expected, observations: seq<Observation>) {
    && DistinctIds(observations) && Singles(t, expected, observations)
    && forall source :: SourceOk(expected, OfSource(observations, source))
  }

  /** What the dictionaries hold for one source. */
  predicate Remembers(expected: Expected, c: Checked, emitted: seq<Observation>, source: string) {
    if emitted == [] then
      source !in c.previous && source !in c.provenances && (source, Request) !in c.positions
        && (source, Reply) !in c.positions
    else
      var last := emitted[|emitted| - 1];
      && source in c.previous && c.previous[source] == (last.sequence, last.tick)
      && source in c.provenances && c.provenances[source] == last.provenance
      && RemembersLeg(expected, c, emitted, source, Request) && RemembersLeg(expected, c, emitted, source, Reply)
  }

  predicate RemembersLeg(expected: Expected, c: Checked, emitted: seq<Observation>, source: string, leg: Leg) {
    LastPosition(expected, emitted, leg) ==
    if (source, leg) in c.positions then Some(c.positions[(source, leg)]) else None
  }

  lemma LastPositionGrows(expected: Expected, emitted: seq<Observation>, o: Observation, leg: Leg)
    ensures LastPosition(expected, emitted + [o], leg) ==
      if o.key.leg == leg && PositionOf(expected, o.key).Some? then PositionOf(expected, o.key)
      else LastPosition(expected, emitted, leg)
  {
    assert (emitted + [o])[..|emitted|] == emitted;
  }

  lemma RemembersStep(expected: Expected, c: Checked, emitted: seq<Observation>, o: Observation)
    requires Remembers(expected, c, emitted, o.provenance.id)
    ensures Remembers(expected, CheckStep(expected, c, o), emitted + [o], o.provenance.id)
  {
    assert RemembersLeg(expected, c, emitted, o.provenance.id, Request);
    assert RemembersLeg(expected, c, emitted, o.provenance.id, Reply);
    hide LastPosition, PositionOf;
    LastPositionGrows(expected, emitted, o, Request);
    LastPositionGrows(expected, emitted, o, Reply);
  }

  lemma RemembersOther(expected: Expected, c: Checked, emitted: seq<Observation>, o: Observation, source: string)
    requires Remembers(expected, c, emitted, source) && o.provenance.id != source
    ensures Remembers(expected, CheckStep(expected, c, o), emitted, source)
  {
    hide LastPosition, PositionOf;
  }

  lemma {:induction false} RememberedState(t: Topology, expected: Expected, observations: seq<Observation>,
                                           source: string)
    requires Check(t, expected, observations).Ok?
    ensures Remembers(expected, Check(t, expected, observations).value, OfSource(observations, source), source)
  {
    if observations != [] {
      var (rest, o) := (observations[..|observations| - 1], observations[|observations| - 1]);
      RememberedState(t, expected, rest, source);
      hide CheckError, CheckStep, Remembers;
      var c := Check(t, expected, rest).value;
      if o.provenance.id == source {
        RemembersStep(expected, c, OfSource(rest, source), o);
      } else {
        RemembersOther(expected, c, OfSource(rest, source), o, source);
        assert OfSource(rest, source) + [] == OfSource(rest, source);
      }
    }
  }

  lemma {:induction false} RememberedIds(t: Topology, expected: Expected, observations: seq<Observation>)
    requires Check(t, expected, observations).Ok?
    ensures forall id :: id in Check(t, expected, observations).value.ids <==>
      exists i :: 0 <= i < |observations| && observations[i].id == id
  {
    hide CheckError, PositionOf;
    if observations != [] {
      var rest := observations[..|observations| - 1];
      RememberedIds(t, expected, rest);
      assert forall i :: 0 <= i < |rest| ==> rest[i] == observations[i];
      assert observations[|observations| - 1] == observations[|observations| - 1];
    }
  }

  lemma FollowsExactly(expected: Expected, c: Checked, before: seq<Observation>, o: Observation)
    requires Remembers(expected, c, before, o.provenance.id)
    ensures SourceError(expected, c, o).None? <==> Follows(expected, before, o)
  {
    hide PositionOf, LastPosition;
    assert o.key.leg == Request || o.key.leg == Reply;
    assert before != [] ==> RemembersLeg(expected, c, before, o.provenance.id, o.key.leg);
  }

  predicate NewId(observations: seq<Observation>, id: string) {
    forall i :: 0 <= i < |observations| ==> observations[i].id != id
  }

  /** The source's loop accepts exactly the acceptable observations. */
  lemma {:induction false} CheckExactly(t: Topology, expected: Expected, observations: seq<Observation>)
    ensures Check(t, expected, observations).Ok? <==> Acceptable(t, expected, observations)
  {
    hide SingleError, SourceError, Remembers, Follows, CheckStep, Acceptable;
    if observations == [] {
      NothingAcceptable(t, expected);
    } else {
      var (rest, o) := (observations[..|observations| - 1], observations[|observations| - 1]);
      CheckExactly(t, expected, rest);
      AcceptableStep(t, expected, rest, o);
      assert rest + [o] == observations;
      if Check(t, expected, rest).Ok? {
        RememberedIds(t, expected, rest);
        assert o.id in Check(t, expected, rest).value.ids <==> !NewId(rest, o.id);
        RememberedState(t, expected, rest, o.provenance.id);
        FollowsExactly(expected, Check(t, expected, rest).value, OfSource(rest, o.provenance.id), o);
      }
    }
  }

  lemma NothingAcceptable(t: Topology, expected: Expected)
    ensures Acceptable(t, expected, [])
  {
  }

  lemma AcceptableStep(t: Topology, expected: Expected, rest: seq<Observation>, o: Observation)
    ensures Acceptable(t, expected, rest + [o]) <==>
      && Acceptable(t, expected, rest) && NewId(rest, o.id) && SingleError(t, expected, o).None?
      && Follows(expected, OfSource(rest, o.provenance.id), o)
  {
    hide SingleError, Follows;
    var all := rest + [o];
    assert forall i :: 0 <= i < |rest| ==> all[i] == rest[i];
    assert all[|rest|] == o;
    if (forall source :: SourceOk(expected, OfSource(all, source))) { SourcesFewer(expected, rest, o); }
    if (forall source :: SourceOk(expected, OfSource(rest, source)))
      && Follows(expected, OfSource(rest, o.provenance.id), o) {
      SourcesMore(expected, rest, o);
    }
    assert Singles(t, expected, all) <==> Singles(t, expected, rest) && SingleError(t, expected, o).None?;
    assert DistinctIds(all) <==> DistinctIds(rest) && NewId(rest, o.id);
  }

  lemma SourcesFewer(expected: Expected, rest: seq<Observation>, o: Observation)
    requires forall source :: SourceOk(expected, OfSource(rest + [o], source))
    ensures forall source :: SourceOk(expected, OfSource(rest, source))
    ensures Follows(expected, OfSource(rest, o.provenance.id), o)
  {
    hide Follows, SourceOk;
    forall source ensures SourceOk(expected, OfSource(rest, source)) {
      OfSourceGrows(rest, o, source);
      OneMore(expected, OfSource(rest, source), o);
    }
    OfSourceGrows(rest, o, o.provenance.id);
    OneMore(expected, OfSource(rest, o.provenance.id), o);
  }

  lemma SourcesMore(expected: Expected, rest: seq<Observation>, o: Observation)
    requires forall source :: SourceOk(expected, OfSource(rest, source))
    requires Follows(expected, OfSource(rest, o.provenance.id), o)
    ensures forall source :: SourceOk(expected, OfSource(rest + [o], source))
  {
    hide Follows, SourceOk;
    forall source ensures SourceOk(expected, OfSource(rest + [o], source)) {
      OfSourceGrows(rest, o, source);
      OneMore(expected, OfSource(rest, source), o);
    }
  }

  lemma OfSourceGrows(rest: seq<Observation>, o: Observation, source: string)
    ensures OfSource(rest + [o], source) == if o.provenance.id == source then OfSource(rest, source) + [o]
      else OfSource(rest, source)
  {
    assert (rest + [o])[..|rest|] == rest;
  }

  lemma OneMore(expected: Expected, own: seq<Observation>, o: Observation)
    ensures SourceOk(expected, own + [o]) <==> SourceOk(expected, own) && Follows(expected, own, o)
  {
    hide Follows;
    assert (own + [o])[..|own|] == own;
  }

  // ----- reordering -----

  lemma {:induction false} SourceCounts(observations: seq<Observation>, o: Observation)
    ensures multiset(observations)[o] == multiset(OfSource(observations, o.provenance.id))[o]
  {
    if observations != [] {
      var (rest, last) := (observations[..|observations| - 1], observations[|observations| - 1]);
      SourceCounts(rest, o);
      assert observations == rest + [last];
    }
  }

  lemma SameObservations(a: seq<Observation>, b: seq<Observation>)
    requires Reordered(a, b)
    ensures multiset(a) == multiset(b)
  {
    forall o ensures multiset(a)[o] == multiset(b)[o] {
      SourceCounts(a, o);
      SourceCounts(b, o);
      assert OfSource(a, o.provenance.id) == OfSource(b, o.provenance.id);
    }
  }

  /** Distinct ids, said without positions. */
  ghost predicate OneEach(observations: seq<Observation>) {
    && (forall o :: multiset(observations)[o] <= 1)
    && (forall o, p :: o in observations && p in observations && o.id == p.id ==> o == p)
  }

  lemma {:induction false} DistinctMeansOneEach(observations: seq<Observation>)
    ensures DistinctIds(observations) <==> OneEach(observations)
  {
    if observations != [] {
      var (rest, last) := (observations[..|observations| - 1], observations[|observations| - 1]);
      DistinctMeansOneEach(rest);
      assert observations == rest + [last];
      assert DistinctIds(observations) <==> DistinctIds(rest) && NewId(rest, last.id);
      assert multiset(observations) == multiset(rest) + multiset{last};
      assert forall o :: o in observations <==> o in rest || o == last;
      if OneEach(observations) {
        assert multiset(observations)[last] <= 1;
        assert multiset(rest)[last] == 0 && last !in rest;
        forall o ensures multiset(rest)[o] <= 1 { assert multiset(observations)[o] <= 1; }
        forall i | 0 <= i < |rest| ensures rest[i].id != last.id {
          assert rest[i] in observations && last in observations;
        }
      }
      if OneEach(rest) && NewId(rest, last.id) {
        assert last !in rest;
      }
    }
  }

  lemma SinglesAsMembers(t: Topology, expected: Expected, observations: seq<Observation>)
    ensures Singles(t, expected, observations) <==> forall o :: o in observations ==> SingleError(t, expected, o).None?
  {
    hide SingleError;
    if forall o :: o in observations ==> SingleError(t, expected, o).None? {
      forall i | 0 <= i < |observations| ensures SingleError(t, expected, observations[i]).None? {
        assert observations[i] in observations;
      }
    }
  }

  lemma PlacedAsMembers(expected: Expected, observations: seq<Observation>)
    ensures Placed(expected, observations) <==>
      forall o :: o in observations ==> BoundaryFor(expected.boundaries, o.key).Some?
  {
    hide BoundaryFor;
    if forall o :: o in observations ==> BoundaryFor(expected.boundaries, o.key).Some? {
      forall i | 0 <= i < |observations| ensures BoundaryFor(expected.boundaries, observations[i].key).Some? {
        assert observations[i] in observations;
      }
    }
  }

  lemma SameMembers(a: seq<Observation>, b: seq<Observation>)
    requires multiset(a) == multiset(b)
    ensures forall o :: o in a <==> o in b
  {
    forall o ensures o in a <==> o in b {
      assert o in a <==> o in multiset(a);
      assert o in b <==> o in multiset(b);
    }
  }

  lemma ReorderedAcceptable(t: Topology, expected: Expected, a: seq<Observation>, b: seq<Observation>)
    requires Reordered(a, b)
    ensures Acceptable(t, expected, a) <==> Acceptable(t, expected, b)
    ensures Placed(expected, a) <==> Placed(expected, b)
  {
    SameObservations(a, b);
    SameMembers(a, b);
    DistinctMeansOneEach(a);
    DistinctMeansOneEach(b);
    SinglesAsMembers(t, expected, a);
    SinglesAsMembers(t, expected, b);
    PlacedAsMembers(expected, a);
    PlacedAsMembers(expected, b);
    hide Singles, DistinctIds, Placed, SourceOk, BoundaryFor, SingleError;
  }

  // ----- the diagnosis -----

  /** The same identifiers, in whatever order. */
  ghost predicate SameIds(a: seq<string>, b: seq<string>) { |a| == |b| && forall x :: x in a <==> x in b }

  ghost predicate SameAssessment(a: Assessment, b: Assessment) {
    a.boundary == b.boundary && a.condition == b.condition && SameIds(a.support, b.support)
  }

  ghost predicate SameDiagnosis(a: Diagnosis, b: Diagnosis) {
    && a.journey == b.journey && a.state == b.state && a.first == b.first && SameIds(a.support, b.support)
    && |a.boundaries| == |b.boundaries|
    && forall i :: 0 <= i < |a.boundaries| ==> SameAssessment(a.boundaries[i], b.boundaries[i])
  }

  lemma {:induction false} CandidateCounts(observations: seq<Observation>, key: Key, o: Observation)
    ensures multiset(Candidates(observations, key))[o] == if o.key == key then multiset(observations)[o] else 0
  {
    if observations != [] {
      var (rest, last) := (observations[..|observations| - 1], observations[|observations| - 1]);
      CandidateCounts(rest, key, o);
      assert observations == rest + [last];
    }
  }

  lemma IdsAsMembers(observations: seq<Observation>)
    ensures |Ids(observations)| == |observations|
    ensures forall x :: x in Ids(observations) <==> exists o :: o in observations && o.id == x
  {
    forall x ensures x in Ids(observations) <==> exists o :: o in observations && o.id == x {
      if x in Ids(observations) {
        var i :| 0 <= i < |observations| && Ids(observations)[i] == x;
        assert observations[i] in observations;
      }
      if o :| o in observations && o.id == x {
        var i :| 0 <= i < |observations| && observations[i] == o;
        assert Ids(observations)[i] == x;
      }
    }
  }

  lemma SameMultisetIds(a: seq<Observation>, b: seq<Observation>)
    requires multiset(a) == multiset(b)
    ensures SameIds(Ids(a), Ids(b))
  {
    assert |a| == |multiset(a)| && |b| == |multiset(b)|;
    SameMembers(a, b);
    IdsAsMembers(a);
    IdsAsMembers(b);
  }

  function OfLeg(observations: seq<Observation>, leg: Leg): seq<Observation> {
    if observations == [] then []
    else
      var o := observations[|observations| - 1];
      OfLeg(observations[..|observations| - 1], leg) + if o.key.leg == leg then [o] else []
  }

  lemma {:induction false} LegIdsAreIds(observations: seq<Observation>, leg: Leg)
    ensures LegIds(observations, leg) == Ids(OfLeg(observations, leg))
  {
    if observations != [] {
      LegIdsAreIds(observations[..|observations| - 1], leg);
    }
  }

  lemma {:induction false} LegCounts(observations: seq<Observation>, leg: Leg, o: Observation)
    ensures multiset(OfLeg(observations, leg))[o] == if o.key.leg == leg then multiset(observations)[o] else 0
  {
    if observations != [] {
      var (rest, last) := (observations[..|observations| - 1], observations[|observations| - 1]);
      LegCounts(rest, leg, o);
      assert observations == rest + [last];
    }
  }

  lemma SameAssess(expected: Expected, boundary: Boundary, a: seq<Observation>, b: seq<Observation>)
    requires multiset(a) == multiset(b)
    ensures SameAssessment(Assess(expected, boundary, a), Assess(expected, boundary, b))
  {
    hide Comparison, Candidates, OfLeg, LegIds, Ids;
    var (x, y) := (Candidates(a, KeyOf(boundary)), Candidates(b, KeyOf(boundary)));
    forall o
      ensures multiset(x)[o] == multiset(y)[o]
        && multiset(OfLeg(a, boundary.leg))[o] == multiset(OfLeg(b, boundary.leg))[o]
    {
      CandidateCounts(a, KeyOf(boundary), o);
      CandidateCounts(b, KeyOf(boundary), o);
      LegCounts(a, boundary.leg, o);
      LegCounts(b, boundary.leg, o);
    }
    assert multiset(x) == multiset(y) && multiset(OfLeg(a, boundary.leg)) == multiset(OfLeg(b, boundary.leg));
    SameMultisetIds(x, y);
    SameMultisetIds(OfLeg(a, boundary.leg), OfLeg(b, boundary.leg));
    LegIdsAreIds(a, boundary.leg);
    LegIdsAreIds(b, boundary.leg);
    assert |x| == |multiset(x)| == |multiset(y)| == |y|;
    if |x| == 1 {
      assert x[0] in multiset(x) && x[0] in multiset(y) && x[0] in y;
    }
  }

  lemma {:induction false} SameFirst(a: seq<Assessment>, b: seq<Assessment>)
    requires |a| == |b| && forall i :: 0 <= i < |a| ==> SameAssessment(a[i], b[i])
    ensures FirstUnresolved(a).Some? <==> FirstUnresolved(b).Some?
    ensures FirstUnresolved(a).Some? ==> SameAssessment(FirstUnresolved(a).value, FirstUnresolved(b).value)
  {
    hide SameIds;
    if a != [] {
      assert SameAssessment(a[0], b[0]);
      SameFirst(a[1..], b[1..]);
    }
  }

  lemma SameDiagnosed(expected: Expected, a: seq<Observation>, b: seq<Observation>)
    requires multiset(a) == multiset(b)
    ensures SameDiagnosis(Diagnosed(expected, a), Diagnosed(expected, b))
  {
    hide Assess, SameIds;
    var (x, y) := (Diagnosed(expected, a).boundaries, Diagnosed(expected, b).boundaries);
    forall i | 0 <= i < |x| ensures SameAssessment(x[i], y[i]) {
      SameAssess(expected, expected.boundaries[i], a, b);
    }
    SameFirst(x, y);
    SameMultisetIds(a, b);
    assert |a| == |multiset(a)| == |multiset(b)| == |b|;
  }

  /** Any reordering that keeps each source's own order is accepted exactly when the original
      is, with the same journey state, the same first unresolved boundary, and at every
      boundary the same condition and the same supporting observations. */
  lemma NoGlobalClock(t: Topology, expected: Expected, a: seq<Observation>, b: seq<Observation>)
    requires Valid(t) && Reordered(a, b)
    ensures Diagnose(t, expected, a).Ok? <==> Diagnose(t, expected, b).Ok?
    ensures Diagnose(t, expected, a).Ok? ==>
      SameDiagnosis(Diagnose(t, expected, a).value, Diagnose(t, expected, b).value)
  {
    hide Check, Acceptable, Placed, Diagnosed, SameDiagnosis, Reordered, RouteBoundaries;
    CheckExactly(t, expected, a);
    CheckExactly(t, expected, b);
    ReorderedAcceptable(t, expected, a, b);
    SameObservations(a, b);
    SameDiagnosed(expected, a, b);
  }

  // ----- prefixes -----

  lemma {:induction false} CheckPrefix(t: Topology, expected: Expected, observations: seq<Observation>, k: nat)
    requires k <= |observations| && Check(t, expected, observations).Ok?
    ensures Check(t, expected, observations[..k]).Ok?
  {
    if Check(t, expected, observations[..k]).Err? {
      FirstCheckError(t, expected, observations, k);
    }
  }

  /** The reducer accepts every prefix of what it accepts. */
  lemma PrefixAccepted(t: Topology, expected: Expected, observations: seq<Observation>, k: nat)
    requires Valid(t) && k <= |observations| && Diagnose(t, expected, observations).Ok?
    ensures Diagnose(t, expected, observations[..k]).Ok?
  {
    hide RouteBoundaries, Check, BoundaryFor;
    CheckPrefix(t, expected, observations, k);
  }
}
