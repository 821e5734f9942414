/**
 The display's assignment of observations to boundaries (ncc/journey_display.py, _snapshot_document).
 */
module JourneyDisplay {
  import opened Wrappers
  import opened JourneyRoute
  import opened Journey
  import opened JourneyOrder

  datatype DisplayError = SupportsMultipleBoundaries | NotEveryObservationAssigned

  type Pair = (string, Boundary)

  /** The observations that support a boundary other than as context for a missing one. */
  function Pairs(a: Assessment): (pairs: seq<Pair>) {
    if a.condition.Missing? then []
    else seq(|a.support|, i requires 0 <= i < |a.support| => (a.support[i], a.boundary))
  }

  function AllPairs(assessments: seq<Assessment>): seq<Pair> {
    if assessments == [] then [] else AllPairs(assessments[..|assessments| - 1]) + Pairs(assessments[|assessments| - 1])
  }

  predicate OnceEach(pairs: seq<Pair>) { forall i, j :: 0 <= i < j < |pairs| ==> pairs[i].0 != pairs[j].0 }

  predicate Covers(pairs: seq<Pair>, ids: seq<string>) {
    && (forall i :: 0 <= i < |pairs| ==> pairs[i].0 in ids)
    && (forall i :: 0 <= i < |ids| ==> Named(pairs, ids[i]))
  }

  predicate Named(pairs: seq<Pair>, id: string) { exists j :: 0 <= j < |pairs| && pairs[j].0 == id }

  predicate MapOf(m: map<string, Boundary>, pairs: seq<Pair>) {
    && (forall i :: 0 <= i < |pairs| ==> pairs[i].0 in m && m[pairs[i].0] == pairs[i].1)
    && (forall id :: id in m ==> exists i :: 0 <= i < |pairs| && pairs[i].0 == id)
  }

  /** Gives every observation its boundary, or finds one with two boundaries or with none. */
  method AssignObservations(assessments: seq<Assessment>, ids: seq<string>)
    returns (result: Result<map<string, Boundary>, DisplayError>)
    ensures result.Ok? <==> OnceEach(AllPairs(assessments)) && Covers(AllPairs(assessments), ids)
    ensures result.Ok? ==> MapOf(result.value, AllPairs(assessments))
    ensures result == Err(SupportsMultipleBoundaries) <==> !OnceEach(AllPairs(assessments))
  {
    hide Covers, AllPairs, Pairs, OnceEach, MapOf;
    NothingAssigned();
    var boundaryByObservation := map[];
    for i := 0 to |assessments|
      invariant OnceEach(AllPairs(assessments[..i])) && MapOf(boundaryByObservation, AllPairs(assessments[..i]))
    {
      AllPairsGrow(assessments, i);
      PrefixPairs(assessments, i + 1);
      var ok;
      ok, boundaryByObservation := AddPairs(boundaryByObservation, AllPairs(assessments[..i]), Pairs(assessments[i]));
      if !ok {
        LongerTwice(AllPairs(assessments[..i + 1]), AllPairs(assessments));
        return Err(SupportsMultipleBoundaries);
      }
    }
    assert assessments[..|assessments|] == assessments;
    SameKeys(boundaryByObservation, AllPairs(assessments), ids);
    if boundaryByObservation.Keys != (set id | id in ids) { return Err(NotEveryObservationAssigned); }
    return Ok(boundaryByObservation);
  }

  lemma NothingAssigned()
    ensures AllPairs([]) == [] && OnceEach([]) && MapOf(map[], [])
  {
  }

  /** The observations of one boundary. */
  method AddPairs(soFar: map<string, Boundary>, ghost before: seq<Pair>, pairs: seq<Pair>)
    returns (ok: bool, m: map<string, Boundary>)
    requires OnceEach(before) && MapOf(soFar, before)
    ensures ok <==> OnceEach(before + pairs)
    ensures ok ==> MapOf(m, before + pairs)
  {
    hide OnceEach;
    m := soFar;
    assert before + pairs[..0] == before;
    for j := 0 to |pairs|
      invariant OnceEach(before + pairs[..j]) && MapOf(m, before + pairs[..j])
    {
      assert before + pairs[..j + 1] == (before + pairs[..j]) + [pairs[j]];
      if pairs[j].0 in m {
        Twice(before + pairs[..j], pairs[j]);
        FirstPairs(before, pairs, j + 1);
        LongerTwice(before + pairs[..j + 1], before + pairs);
        return false, m;
      }
      MapGrows(m, before + pairs[..j], pairs[j]);
      m := m[pairs[j].0 := pairs[j].1];
    }
    assert pairs[..|pairs|] == pairs;
    ok := true;
  }

  lemma FirstPairs(before: seq<Pair>, pairs: seq<Pair>, k: nat)
    requires k <= |pairs|
    ensures before + pairs[..k] <= before + pairs
  {
  }

  lemma Twice(pairs: seq<Pair>, pair: Pair)
    requires exists i :: 0 <= i < |pairs| && pairs[i].0 == pair.0
    ensures !OnceEach(pairs + [pair])
  {
    var i :| 0 <= i < |pairs| && pairs[i].0 == pair.0;
    assert (pairs + [pair])[i].0 == (pairs + [pair])[|pairs|].0;
  }

  lemma MapGrows(m: map<string, Boundary>, pairs: seq<Pair>, pair: Pair)
    requires OnceEach(pairs) && MapOf(m, pairs) && pair.0 !in m
    ensures OnceEach(pairs + [pair]) && MapOf(m[pair.0 := pair.1], pairs + [pair])
  {
    var all := pairs + [pair];
    assert all[|pairs|] == pair && forall i :: 0 <= i < |pairs| ==> all[i] == pairs[i];
  }

  lemma LongerTwice(part: seq<Pair>, whole: seq<Pair>)
    requires part <= whole && !OnceEach(part)
    ensures !OnceEach(whole)
  {
    var i, j :| 0 <= i < j < |part| && part[i].0 == part[j].0;
    assert whole[i].0 == whole[j].0;
  }

  lemma AllPairsGrow(assessments: seq<Assessment>, i: nat)
    requires i < |assessments|
    ensures AllPairs(assessments[..i + 1]) == AllPairs(assessments[..i]) + Pairs(assessments[i])
  {
    assert assessments[..i + 1][..i] == assessments[..i];
  }

  lemma {:induction false} PrefixPairs(assessments: seq<Assessment>, k: nat)
    requires k <= |assessments|
    ensures AllPairs(assessments[..k]) <= AllPairs(assessments)
  {
    if k == |assessments| {
      assert assessments[..k] == assessments;
    } else {
      assert assessments[..|assessments| - 1][..k] == assessments[..k];
      PrefixPairs(assessments[..|assessments| - 1], k);
    }
  }

  lemma SameKeys(m: map<string, Boundary>, pairs: seq<Pair>, ids: seq<string>)
    requires MapOf(m, pairs)
    ensures m.Keys == (set id | id in ids) <==> Covers(pairs, ids)
  {
    if m.Keys == (set id | id in ids) {
      NamesCover(m, pairs, ids);
    }
    if Covers(pairs, ids) {
      CoversNames(m, pairs, ids);
    }
  }

  lemma NamesCover(m: map<string, Boundary>, pairs: seq<Pair>, ids: seq<string>)
    requires MapOf(m, pairs) && m.Keys == (set id | id in ids)
    ensures Covers(pairs, ids)
  {
    forall i | 0 <= i < |ids| ensures Named(pairs, ids[i]) {
      assert ids[i] in m.Keys;
    }
    forall i | 0 <= i < |pairs| ensures pairs[i].0 in ids {
      assert pairs[i].0 in m.Keys;
    }
  }

  lemma CoversNames(m: map<string, Boundary>, pairs: seq<Pair>, ids: seq<string>)
    requires MapOf(m, pairs) && Covers(pairs, ids)
    ensures m.Keys == (set id | id in ids)
  {
    forall id ensures id in m.Keys <==> id in ids {
      if id in m {
        var i :| 0 <= i < |pairs| && pairs[i].0 == id;
      }
      if id in ids {
        var i :| 0 <= i < |ids| && ids[i] == id;
        assert Named(pairs, ids[i]);
        var j :| 0 <= j < |pairs| && pairs[j].0 == ids[i];
        assert pairs[j].0 in m;
      }
    }
    assert m.Keys == (set id | id in ids);
  }

  // ----- accepted observations -----

  lemma {:induction false} CandidatesMembers(observations: seq<Observation>, key: Key)
    ensures forall o :: o in Candidates(observations, key) <==> o in observations && o.key == key
  {
    if observations != [] {
      var rest := observations[..|observations| - 1];
      CandidatesMembers(rest, key);
      assert observations == rest + [observations[|rest|]];
    }
  }

  lemma {:induction false} CandidatesDistinct(observations: seq<Observation>, key: Key)
    requires DistinctIds(observations)
    ensures DistinctIds(Candidates(observations, key))
  {
    if observations != [] {
      var (rest, last) := (observations[..|observations| - 1], observations[|observations| - 1]);
      CandidatesDistinct(rest, key);
      CandidatesMembers(rest, key);
      var before := Candidates(rest, key);
      forall i | 0 <= i < |before| ensures before[i].id != last.id {
        assert before[i] in before;
        var j :| 0 <= j < |rest| && rest[j] == before[i];
        assert observations[j].id != observations[|rest|].id;
      }
    }
  }

  /** A pair names an observation at the boundary's own crossing. */
  ghost predicate Proper(pair: Pair, observations: seq<Observation>) {
    exists o :: o in observations && o.id == pair.0 && o.key == KeyOf(pair.1)
  }

  lemma AssessPairs(expected: Expected, b: Boundary, observations: seq<Observation>)
    requires DistinctIds(observations)
    ensures var pairs := Pairs(Assess(expected, b, observations));
      && OnceEach(pairs) && (forall i :: 0 <= i < |pairs| ==> pairs[i].1 == b && Proper(pairs[i], observations))
      && (forall o :: o in observations && o.key == KeyOf(b) ==> exists i :: 0 <= i < |pairs| && pairs[i] == (o.id, b))
  {
    hide Candidates, KeyOf, Comparison;
    CandidatesMembers(observations, KeyOf(b));
    CandidatesDistinct(observations, KeyOf(b));
    var (candidates, pairs) := (Candidates(observations, KeyOf(b)), Pairs(Assess(expected, b, observations)));
    ComparedIsNotMissing(expected, b, observations);
    assert |pairs| == |candidates| && forall i :: 0 <= i < |pairs| ==> pairs[i] == (candidates[i].id, b);
    forall i | 0 <= i < |pairs| ensures Proper(pairs[i], observations) {
      assert candidates[i] in candidates && candidates[i].id == pairs[i].0;
    }
    forall o | o in observations && o.key == KeyOf(b) ensures exists i :: 0 <= i < |pairs| && pairs[i] == (o.id, b) {
      var i :| 0 <= i < |candidates| && candidates[i] == o;
      assert pairs[i] == (o.id, b);
    }
  }

  lemma ComparedIsNotMissing(expected: Expected, b: Boundary, observations: seq<Observation>)
    ensures Assess(expected, b, observations).condition.Missing? <==> Candidates(observations, KeyOf(b)) == []
  {
  }

  lemma {:induction false} BoundariesPairs(expected: Expected, bs: seq<Boundary>, observations: seq<Observation>,
                                           assessments: seq<Assessment>)
    requires DistinctIds(observations) && |assessments| == |bs|
    requires forall i :: 0 <= i < |bs| ==> assessments[i] == Assess(expected, bs[i], observations)
    requires forall i, j :: 0 <= i < j < |bs| ==> KeyOf(bs[i]) != KeyOf(bs[j])
    ensures OnceEach(AllPairs(assessments))
    ensures forall i :: 0 <= i < |AllPairs(assessments)| ==>
      Proper(AllPairs(assessments)[i], observations) && AllPairs(assessments)[i].1 in bs
    ensures forall o, b :: o in observations && b in bs && o.key == KeyOf(b) ==> (o.id, b) in AllPairs(assessments)
  {
    hide Assess, Pairs, KeyOf;
    if bs != [] {
      var (rest, b) := (bs[..|bs| - 1], bs[|bs| - 1]);
      BoundariesPairs(expected, rest, observations, assessments[..|bs| - 1]);
      AssessPairs(expected, b, observations);
      var (before, added) := (AllPairs(assessments[..|bs| - 1]), Pairs(assessments[|bs| - 1]));
      PairsApart(before, added, rest, b, observations);
    }
  }

  lemma PairsApart(before: seq<Pair>, added: seq<Pair>, rest: seq<Boundary>, b: Boundary,
                   observations: seq<Observation>)
    requires DistinctIds(observations) && OnceEach(before) && OnceEach(added)
    requires forall i :: 0 <= i < |before| ==> Proper(before[i], observations) && before[i].1 in rest
    requires forall i :: 0 <= i < |added| ==> added[i].1 == b && Proper(added[i], observations)
    requires forall i :: 0 <= i < |rest| ==> KeyOf(rest[i]) != KeyOf(b)
    ensures OnceEach(before + added)
  {
    hide KeyOf;
    forall i, j | 0 <= i < |before| && 0 <= j < |added| ensures before[i].0 != added[j].0 {
      var o :| o in observations && o.id == before[i].0 && o.key == KeyOf(before[i].1);
      var p :| p in observations && p.id == added[j].0 && p.key == KeyOf(added[j].1);
      assert o != p;
      var x, y :| 0 <= x < |observations| && 0 <= y < |observations| && observations[x] == o && observations[y] == p;
      assert x != y;
    }
  }

  /** Of what the reducer accepts, every observation supports exactly one boundary that is not
      missing, the one at its own crossing; the display's two consistency errors cannot occur. */
  lemma EveryObservationAssigned(t: Topology, expected: Expected, observations: seq<Observation>)
    requires Valid(t) && Diagnose(t, expected, observations).Ok?
    ensures var pairs := AllPairs(Diagnose(t, expected, observations).value.boundaries);
      && OnceEach(pairs) && Covers(pairs, Ids(observations))
      && forall i :: 0 <= i < |observations| ==> AtItsCrossing(pairs, observations[i])
  {
    hide Diagnose, Valid, Assess, AllPairs, Placed, OnceEach, Covers, DistinctIds, KeyOf, AtItsCrossing;
    var (assessments, bs) := (Diagnose(t, expected, observations).value.boundaries, expected.boundaries);
    AcceptedFacts(t, expected, observations);
    BoundariesPairs(expected, bs, observations, assessments);
    forall i | 0 <= i < |observations| ensures AtItsCrossing(AllPairs(assessments), observations[i]) {
      AssignedAt(expected, observations, AllPairs(assessments), i);
    }
    ProperCovers(observations, AllPairs(assessments));
  }

  /** The observation supports the boundary it was made at. */
  ghost predicate AtItsCrossing(pairs: seq<Pair>, o: Observation) {
    exists b :: (o.id, b) in pairs && KeyOf(b) == o.key
  }

  lemma AcceptedFacts(t: Topology, expected: Expected, observations: seq<Observation>)
    requires Valid(t) && Diagnose(t, expected, observations).Ok?
    ensures DistinctIds(observations) && Placed(expected, observations)
    ensures var (assessments, bs) := (Diagnose(t, expected, observations).value.boundaries, expected.boundaries);
      && |assessments| == |bs|
      && (forall i :: 0 <= i < |bs| ==> assessments[i] == Assess(expected, bs[i], observations))
      && forall i, j :: 0 <= i < j < |bs| ==> KeyOf(bs[i]) != KeyOf(bs[j])
  {
    CheckExactly(t, expected, observations);
    RouteMirroring(t, expected.route);
    hide RouteBoundaries, Check, Assess, KeyOf, Placed;
  }

  lemma AssignedAt(expected: Expected, observations: seq<Observation>, pairs: seq<Pair>, i: nat)
    requires Placed(expected, observations) && i < |observations|
    requires forall o, b :: o in observations && b in expected.boundaries && o.key == KeyOf(b) ==> (o.id, b) in pairs
    ensures AtItsCrossing(pairs, observations[i])
  {
    hide KeyOf;
    BoundaryIsThere(expected.boundaries, observations[i].key);
    var k :| 0 <= k < |expected.boundaries| && KeyOf(expected.boundaries[k]) == observations[i].key;
    assert observations[i] in observations && expected.boundaries[k] in expected.boundaries;
  }

  lemma ProperCovers(observations: seq<Observation>, pairs: seq<Pair>)
    requires forall i :: 0 <= i < |pairs| ==> Proper(pairs[i], observations)
    requires forall i :: 0 <= i < |observations| ==> AtItsCrossing(pairs, observations[i])
    ensures Covers(pairs, Ids(observations))
  {
    hide KeyOf;
    forall i | 0 <= i < |pairs| ensures pairs[i].0 in Ids(observations) {
      assert Proper(pairs[i], observations);
      IdsAsMembers(observations);
    }
    forall i | 0 <= i < |observations| ensures Named(pairs, observations[i].id) {
      assert AtItsCrossing(pairs, observations[i]);
      var b :| (observations[i].id, b) in pairs && KeyOf(b) == observations[i].key;
      var j :| 0 <= j < |pairs| && pairs[j] == (observations[i].id, b);
    }
  }
}
