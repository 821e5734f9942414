/**
 The reducer of ncc/message_journey.py: direct observations are checked source by source,
 assigned to the boundaries of the route, and the first unresolved boundary is diagnosed.
 */
module Journey {
  import opened Wrappers
  import opened Digests
  import opened JourneyRoute

  datatype MessageClass = Regular | ErrorWithLeader | Nop | Rfnm | ImpControl | UnknownClass

  const FIELDS := 9   // message_type, host, link, subtype, m1, byte_size, byte_count, m2, ncp_opcode

  type Fields = f: seq<Option<nat>> | |f| == FIELDS witness [None, None, None, None, None, None, None, None, None]

  datatype Decoded = Decoded(messageClass: MessageClass, fields: Fields)

  datatype Expectation = Expectation(fingerprint: Digest, messageClass: MessageClass, fields: Fields)

  datatype Provenance = Provenance(id: string, kind: string, revision: Option<string>)

  datatype Observation = Observation(id: string, journey: string, key: Key, sequence: nat, decoded: Decoded,
                                     fingerprint: Digest, provenance: Provenance, tick: Option<nat>)

  datatype Expected = Expected(id: string, topology: string, route: string, request: Expectation, reply: Expectation,
                               boundaries: seq<Boundary>)

  datatype Condition = Observed | Missing | Contradictory | Ambiguous

  datatype State = Complete | MissingBoundary | ContradictoryBoundary | AmbiguousJourney | UnknownJourney

  datatype Assessment = Assessment(boundary: Boundary, condition: Condition, support: seq<string>)

  datatype Diagnosis = Diagnosis(journey: string, state: State, first: Option<Boundary>, support: seq<string>,
                                 boundaries: seq<Assessment>)

  datatype Error =
    | WrongTopology
    | StaleBoundaries
    | DuplicateId
    | OtherJourney
    | MalformedCorrelation
    | UnknownPlace
    | UnknownInterface
    | NotOwned
    | ProvenanceChanged
    | SequenceNotIncreasing
    | TickBackward
    | RouteBackward
    | NoSuchBoundary

  // ----- comparing one message with what is expected -----

  predicate Contradicts(expected: Option<nat>, observed: Option<nat>) {
    expected.Some? && observed.Some? && expected != observed
  }

  predicate Leaves(expected: Option<nat>, observed: Option<nat>) { expected.Some? && observed.None? }

  /** What the comparison means: a known other class, or any field known to differ, is a
      contradiction; otherwise an unknown class or an expected field not seen is ambiguous. */
  function Comparison(expected: Expectation, message: Decoded): Condition {
    if message.messageClass != expected.messageClass then
      if message.messageClass.UnknownClass? then Ambiguous else Contradictory
    else if exists i :: 0 <= i < FIELDS && Contradicts(expected.fields[i], message.fields[i]) then Contradictory
    else if exists i :: 0 <= i < FIELDS && Leaves(expected.fields[i], message.fields[i]) then Ambiguous
    else Observed
  }

  method Compare(expected: Expectation, message: Decoded) returns (condition: Condition)
    ensures condition == Comparison(expected, message)
    ensures condition == Observed <==>
      && message.messageClass == expected.messageClass
      && forall i :: 0 <= i < FIELDS && expected.fields[i].Some? ==> message.fields[i] == expected.fields[i]
  {
    if message.messageClass != expected.messageClass {
      if message.messageClass.UnknownClass? { return Ambiguous; }
      return Contradictory;
    }
    var incomplete := false;
    for i := 0 to FIELDS
      invariant forall k :: 0 <= k < i ==> !Contradicts(expected.fields[k], message.fields[k])
      invariant incomplete <==> exists k :: 0 <= k < i && Leaves(expected.fields[k], message.fields[k])
    {
      assert Leaves(expected.fields[i], message.fields[i]) || !Leaves(expected.fields[i], message.fields[i]);
      if expected.fields[i].Some? {
        if message.fields[i].None? {
          incomplete := true;
        } else if message.fields[i] != expected.fields[i] {
          assert Contradicts(expected.fields[i], message.fields[i]);
          return Contradictory;
        }
      }
    }
    return if incomplete then Ambiguous else Observed;
  }

  function ExpectationOf(expected: Expected, leg: Leg): Expectation {
    if leg.Request? then expected.request else expected.reply
  }

  // ----- checking the observations -----

  /** Where the route crosses this key, if it does. */
  function BoundaryFor(boundaries: seq<Boundary>, key: Key): Option<Boundary> {
    if boundaries == [] then None
    else if KeyOf(boundaries[|boundaries| - 1]) == key then Some(boundaries[|boundaries| - 1])
    else BoundaryFor(boundaries[..|boundaries| - 1], key)
  }

  function PositionOf(expected: Expected, key: Key): Option<nat> {
    match BoundaryFor(expected.boundaries, key)
    case None => None
    case Some(b) => Some(b.position)
  }

  /** What one observation must satisfy whatever else was observed. */
  function SingleError(t: Topology, expected: Expected, o: Observation): Option<Error> {
    if o.journey != expected.id then Some(OtherJourney)
    else if o.fingerprint != ExpectationOf(expected, o.key.leg).fingerprint then Some(MalformedCorrelation)
    else if o.key.component !in t.components then Some(UnknownPlace)
    else if o.key.interface !in t.owners then Some(UnknownInterface)
    else if t.owners[o.key.interface] != o.key.component then Some(NotOwned)
    else None
  }

  type Seat = (string, Leg)

  /** The dictionaries of the source's loop. */
  datatype Checked = Checked(ids: set<string>, previous: map<string, (nat, Option<nat>)>,
                             provenances: map<string, Provenance>, positions: map<Seat, nat>)

  const FRESH: Checked := Checked({}, map[], map[], map[])

  function SourceError(expected: Expected, c: Checked, o: Observation): Option<Error> {
    var source := o.provenance.id;
    if source in c.provenances && c.provenances[source] != o.provenance then Some(ProvenanceChanged)
    else if source in c.previous && o.sequence <= c.previous[source].0 then Some(SequenceNotIncreasing)
    else if source in c.previous && o.tick.Some? && c.previous[source].1.Some?
      && o.tick.value < c.previous[source].1.value
      then Some(TickBackward)
    else if PositionOf(expected, o.key).Some? && (source, o.key.leg) in c.positions
      && PositionOf(expected, o.key).value < c.positions[(source, o.key.leg)] then Some(RouteBackward)
    else None
  }

  function CheckError(t: Topology, expected: Expected, c: Checked, o: Observation): Option<Error> {
    if o.id in c.ids then Some(DuplicateId)
    else if SingleError(t, expected, o).Some? then SingleError(t, expected, o)
    else SourceError(expected, c, o)
  }

  function CheckStep(expected: Expected, c: Checked, o: Observation): Checked {
    var source := o.provenance.id;
    Checked(c.ids + {o.id}, c.previous[source := (o.sequence, o.tick)], c.provenances[source := o.provenance],
            if PositionOf(expected, o.key).Some?
              then c.positions[(source, o.key.leg) := PositionOf(expected, o.key).value]
            else c.positions)
  }

  function Check(t: Topology, expected: Expected, observations: seq<Observation>): Result<Checked, Error> {
    if observations == [] then Ok(FRESH)
    else
      var o := observations[|observations| - 1];
      match Check(t, expected, observations[..|observations| - 1])
      case Err(e) => Err(e)
      case Ok(c) =>
        if CheckError(t, expected, c, o).Some? then Err(CheckError(t, expected, c, o).value)
        else Ok(CheckStep(expected, c, o))
  }

  method ValidateObservations(t: Topology, expected: Expected, observations: seq<Observation>)
    returns (result: Result<Checked, Error>)
    ensures result == Check(t, expected, observations)
  {
    hide SingleError, SourceError, PositionOf;
    var identifiers, previousBySource, provenanceBySource := {}, map[], map[];
    var previousPosition: map<Seat, nat> := map[];
    for i := 0 to |observations|
      invariant Check(t, expected, observations[..i])
        == Ok(Checked(identifiers, previousBySource, provenanceBySource, previousPosition))
    {
      var o := observations[i];
      assert observations[..i + 1][..i] == observations[..i];
      var error := CheckError(t, expected, Checked(identifiers, previousBySource, provenanceBySource, previousPosition),
                              o);
      if error.Some? {
        FirstCheckError(t, expected, observations, i + 1);
        return Err(error.value);
      }
      identifiers := identifiers + {o.id};
      var source := o.provenance.id;
      provenanceBySource := provenanceBySource[source := o.provenance];
      previousBySource := previousBySource[source := (o.sequence, o.tick)];
      var position := PositionOf(expected, o.key);
      if position.Some? {
        previousPosition := previousPosition[(source, o.key.leg) := position.value];
      }
    }
    assert observations[..|observations|] == observations;
    return Ok(Checked(identifiers, previousBySource, provenanceBySource, previousPosition));
  }

  lemma {:induction false} FirstCheckError(t: Topology, expected: Expected, observations: seq<Observation>, k: nat)
    requires k <= |observations| && Check(t, expected, observations[..k]).Err?
    ensures Check(t, expected, observations) == Check(t, expected, observations[..k])
  {
    hide CheckError, CheckStep;
    if k == |observations| {
      assert observations[..k] == observations;
    } else {
      assert observations[..|observations| - 1][..k] == observations[..k];
      FirstCheckError(t, expected, observations[..|observations| - 1], k);
    }
  }

  // ----- diagnosis -----

  function Ids(observations: seq<Observation>): seq<string> {
    seq(|observations|, i requires 0 <= i < |observations| => observations[i].id)
  }

  /** The observations at one crossing, in the order given. */
  function Candidates(observations: seq<Observation>, key: Key): seq<Observation> {
    if observations == [] then []
    else
      var o := observations[|observations| - 1];
      Candidates(observations[..|observations| - 1], key) + if o.key == key then [o] else []
  }

  function LegIds(observations: seq<Observation>, leg: Leg): seq<string> {
    if observations == [] then []
    else
      var o := observations[|observations| - 1];
      LegIds(observations[..|observations| - 1], leg) + if o.key.leg == leg then [o.id] else []
  }

  function Assess(expected: Expected, b: Boundary, observations: seq<Observation>): Assessment {
    var candidates := Candidates(observations, KeyOf(b));
    if candidates == [] then Assessment(b, Missing, LegIds(observations, b.leg))
    else if |candidates| > 1 then Assessment(b, Ambiguous, Ids(candidates))
    else Assessment(b, Comparison(ExpectationOf(expected, b.leg), candidates[0].decoded), Ids(candidates))
  }

  function FirstUnresolved(assessments: seq<Assessment>): Option<Assessment> {
    if assessments == [] then None
    else if !assessments[0].condition.Observed? then Some(assessments[0])
    else FirstUnresolved(assessments[1..])
  }

  function StateFor(first: Option<Assessment>, any: bool): State {
    match first
    case None => Complete
    case Some(a) =>
      match a.condition
      case Contradictory => ContradictoryBoundary
      case Ambiguous => AmbiguousJourney
      case _ => if any then MissingBoundary else UnknownJourney
  }

  /** The diagnosis of checked observations. */
  function Diagnosed(expected: Expected, observations: seq<Observation>): Diagnosis {
    var bs := expected.boundaries;
    var assessments := seq(|bs|, i requires 0 <= i < |bs| => Assess(expected, bs[i], observations));
    var first := FirstUnresolved(assessments);
    Diagnosis(expected.id, StateFor(first, observations != []),
              if first.Some? then Some(first.value.boundary) else None, Ids(observations), assessments)
  }

  predicate Placed(expected: Expected, observations: seq<Observation>) {
    forall i :: 0 <= i < |observations| ==> BoundaryFor(expected.boundaries, observations[i].key).Some?
  }

  /** The whole reducer. */
  function Diagnose(t: Topology, expected: Expected, observations: seq<Observation>): Result<Diagnosis, Error>
    requires Valid(t)
  {
    if t.id != expected.topology then Err(WrongTopology)
    else if RouteBoundaries(t, expected.route) != Ok(expected.boundaries) then Err(StaleBoundaries)
    else if Check(t, expected, observations).Err? then Err(Check(t, expected, observations).error)
    else if !Placed(expected, observations) then Err(NoSuchBoundary)
    else Ok(Diagnosed(expected, observations))
  }

  /** The candidates of every boundary, collected in one pass. */
  method Collect(expected: Expected, observations: seq<Observation>)
    returns (result: Result<map<Key, seq<Observation>>, Error>)
    ensures result.Ok? <==> Placed(expected, observations)
    ensures result.Err? ==> result.error == NoSuchBoundary
    ensures result.Ok? ==> forall i :: 0 <= i < |expected.boundaries| ==>
      var key := KeyOf(expected.boundaries[i]);
      key in result.value && result.value[key] == Candidates(observations, key)
  {
    var candidates: map<Key, seq<Observation>> := map[];
    for i := 0 to |expected.boundaries|
      invariant forall k :: 0 <= k < i ==> KeyOf(expected.boundaries[k]) in candidates
      invariant forall key :: key in candidates ==> candidates[key] == []
    {
      candidates := candidates[KeyOf(expected.boundaries[i]) := []];
    }
    for i := 0 to |observations|
      invariant Placed(expected, observations[..i])
      invariant forall k :: 0 <= k < |expected.boundaries| ==> KeyOf(expected.boundaries[k]) in candidates
      invariant forall key :: key in candidates ==> candidates[key] == Candidates(observations[..i], key)
    {
      hide BoundaryFor, KeyOf;
      var o := observations[i];
      assert observations[..i + 1][..i] == observations[..i];
      if BoundaryFor(expected.boundaries, o.key).None? {
        return Err(NoSuchBoundary);
      }
      BoundaryIsThere(expected.boundaries, o.key);
      candidates := candidates[o.key := candidates[o.key] + [o]];
    }
    assert observations[..|observations|] == observations;
    return Ok(candidates);
  }

  lemma {:induction false} BoundaryIsThere(boundaries: seq<Boundary>, key: Key)
    requires BoundaryFor(boundaries, key).Some?
    ensures exists i ::
      0 <= i < |boundaries| && KeyOf(boundaries[i]) == key && Some(boundaries[i]) == BoundaryFor(boundaries, key)
  {
    if KeyOf(boundaries[|boundaries| - 1]) != key {
      var rest := boundaries[..|boundaries| - 1];
      BoundaryIsThere(rest, key);
      var i :| 0 <= i < |rest| && KeyOf(rest[i]) == key && Some(rest[i]) == BoundaryFor(rest, key);
      assert KeyOf(boundaries[i]) == key;
    }
  }

  method DiagnoseMessageJourney(t: Topology, expected: Expected, observations: seq<Observation>)
    returns (result: Result<Diagnosis, Error>)
    requires Valid(t)
    ensures result == Diagnose(t, expected, observations)
  {
    hide Candidates, Comparison, Check, Placed, Assess, StateFor, LegIds, RouteBoundaries;
    if t.id != expected.topology { return Err(WrongTopology); }
    var boundaries := DeriveBoundaries(t, expected.route);
    if boundaries != Ok(expected.boundaries) { return Err(StaleBoundaries); }
    var checked := ValidateObservations(t, expected, observations);
    if checked.Err? { return Err(checked.error); }
    var collected := Collect(expected, observations);
    if collected.Err? { return Err(collected.error); }
    var (candidates, assessments) := (collected.value, []);
    for i := 0 to |expected.boundaries|
      invariant |assessments| == i
      invariant forall k :: 0 <= k < i ==> assessments[k] == Assess(expected, expected.boundaries[k], observations)
    {
      var assessment := AssessOne(expected, expected.boundaries[i], observations,
                                  candidates[KeyOf(expected.boundaries[i])]);
      assessments := assessments + [assessment];
    }
    assert assessments == Diagnosed(expected, observations).boundaries;
    var first := FirstUnresolved(assessments);
    return Ok(Diagnosis(expected.id, StateFor(first, observations != []),
                        if first.Some? then Some(first.value.boundary) else None, Ids(observations), assessments));
  }

  method AssessOne(expected: Expected, b: Boundary, observations: seq<Observation>, candidates: seq<Observation>)
    returns (assessment: Assessment)
    requires candidates == Candidates(observations, KeyOf(b))
    ensures assessment == Assess(expected, b, observations)
  {
    hide Candidates, Comparison;
    if candidates == [] { return Assessment(b, Missing, LegIds(observations, b.leg)); }
    if |candidates| > 1 { return Assessment(b, Ambiguous, Ids(candidates)); }
    var condition := Compare(ExpectationOf(expected, b.leg), candidates[0].decoded);
    return Assessment(b, condition, Ids(candidates));
  }
}
