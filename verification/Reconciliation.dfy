/**
 The reducer of ncc/reconciliation.py: the newest direct observation of every line end and
 every IMP, paired over the nominal topology at one observation time.
 */
module Reconciliation {
  import opened Wrappers
  import opened HistoricalEvents

  datatype Endpoint = Endpoint(imp: int, interface: int)

  datatype Line = Line(id: string, first: Endpoint, second: Endpoint)

  /** NominalLine and NominalTopology refuse anything else. */
  predicate Nominal(lines: seq<Line>) {
    && lines != []
    && (forall i :: 0 <= i < |lines| ==>
         lines[i].first.imp != lines[i].second.imp && lines[i].first.imp > 0 && lines[i].second.imp > 0
         && lines[i].first.interface > 0 && lines[i].second.interface > 0)
    && (forall i, j :: 0 <= i < j < |lines| ==> lines[i].id != lines[j].id)
    && (forall i, j :: 0 <= i < j < |lines| ==> Ends(lines[i]) !! Ends(lines[j]))
  }

  function Ends(line: Line): set<Endpoint> { {line.first, line.second} }

  function Minus(line: Line): Endpoint { if line.first.imp < line.second.imp then line.first else line.second }

  function Plus(line: Line): Endpoint { if line.first.imp < line.second.imp then line.second else line.first }

  function Peer(line: Line, endpoint: Endpoint): Endpoint {
    if endpoint == line.first then line.second else line.first
  }

  /** The end of a line at one of its IMPs. */
  function Local(line: Line, imp: int): Endpoint { if line.first.imp == imp then line.first else line.second }

  predicate Incident(line: Line, imp: int) { line.first.imp == imp || line.second.imp == imp }

  function IncidentLines(lines: seq<Line>, imp: int): seq<Line> {
    if lines == [] then []
    else IncidentLines(lines[..|lines| - 1], imp) +
         if Incident(lines[|lines| - 1], imp) then [lines[|lines| - 1]] else []
  }

  datatype Condition =
    | LineUp
    | LineDown
    | LineLooped
    | MinusDown
    | PlusDown
    | MinusLooped
    | PlusLooped
    | LineUnknown
    | Stale
    | Contradictory

  datatype Reach = ImpUp | ImpUnknown | ImpPartitioned | ImpStale

  datatype Observation = Observation(event: Event, matches: bool)

  /** The newest observation of each line end and the newest report of each IMP. */
  datatype Seen = Seen(ends: map<Endpoint, Observation>, imps: map<int, Event>)

  datatype EndView = EndView(line: string, endpoint: Endpoint, minus: bool, condition: Condition,
                             lastKnown: Option<State>, observedAt: Option<Time>, matches: Option<bool>,
                             support: seq<int>)

  datatype LineView = LineView(id: string, condition: Condition, support: seq<int>)

  datatype ImpView = ImpView(imp: int, reach: Reach, support: seq<int>)

  datatype Views = Views(lines: seq<LineView>, imps: seq<ImpView>, ends: seq<EndView>)

  datatype Fault =
    | ObservedBeforeStart
    | BadInterval
    | SequenceNotIncreasing
    | TimeDecreasing
    | EventInFuture
    | NotDirect
    | SourceMismatch
    | UnsupportedState
    | ReportSubject
    | ReportKind

  predicate Expired(observed: Time, current: Time, interval: Time) { current - observed > interval }

  predicate Direct(state: State) { state.Up? || state.Down? || state.Looped? || state.Unknown? }

  /** Whether the neighbour an endpoint reports is the one its configuration leads to expect. */
  predicate MatchesExpectedPeer(e: Event, line: Line, endpoint: Endpoint) {
    if e.state.Unknown? then true
    else if e.state.Looped? then e.neighbor == Some(endpoint.imp)
    else if e.state.Down? && e.neighbor.None? then true
    else e.neighbor == Some(Peer(line, endpoint).imp)
  }

  // ----- pairing -----

  function Single(state: State): Condition
    requires Direct(state)
  {
    match state
    case Up => LineUp
    case Down => LineDown
    case Looped => LineLooped
    case Unknown => LineUnknown
  }

  /** The condition of a line from what its two ends say. */
  function PairedCondition(minus: State, plus: State): Condition
    requires Direct(minus) && Direct(plus)
  {
    if minus == plus then Single(minus)
    else if minus.Unknown? || plus.Unknown? then LineUnknown
    else if !minus.Up? && !plus.Up? then Contradictory
    else if plus.Up? then if minus.Down? then MinusDown else MinusLooped
    else if plus.Down? then PlusDown else PlusLooped
  }

  function Mirror(c: Condition): Condition {
    match c
    case MinusDown => PlusDown
    case PlusDown => MinusDown
    case MinusLooped => PlusLooped
    case PlusLooped => MinusLooped
    case _ => c
  }

  // ----- sorted sequences of numbers -----

  function Insert(x: int, s: seq<int>): (r: seq<int>) {
    if s == [] || x <= s[0] then [x] + s else [s[0]] + Insert(x, s[1..])
  }

  /** Python's sorted. */
  function Sorted(s: seq<int>): (r: seq<int>) {
    if s == [] then [] else Insert(s[0], Sorted(s[1..]))
  }

  predicate NonDecreasing(s: seq<int>) { forall i, j :: 0 <= i < j < |s| ==> s[i] <= s[j] }

  predicate Increasing(s: seq<int>) { forall i, j :: 0 <= i < j < |s| ==> s[i] < s[j] }

  predicate Distinct(s: seq<int>) { forall i, j :: 0 <= i < j < |s| ==> s[i] != s[j] }

  lemma {:induction false} InsertCounts(x: int, s: seq<int>)
    ensures multiset(Insert(x, s)) == multiset(s) + multiset{x}
  {
    if s != [] && x > s[0] {
      InsertCounts(x, s[1..]);
      assert s == [s[0]] + s[1..];
    }
  }

  lemma {:induction false} InsertOrder(x: int, s: seq<int>)
    requires NonDecreasing(s)
    ensures NonDecreasing(Insert(x, s)) && |Insert(x, s)| == |s| + 1
    ensures forall i :: 0 <= i <= |s| ==> Insert(x, s)[i] == x || Insert(x, s)[i] in s
  {
    if s != [] && x > s[0] {
      InsertOrder(x, s[1..]);
    }
  }

  lemma InsertKeeps(x: int, s: seq<int>)
    requires NonDecreasing(s)
    ensures NonDecreasing(Insert(x, s)) && multiset(Insert(x, s)) == multiset(s) + multiset{x}
  {
    InsertCounts(x, s);
    InsertOrder(x, s);
  }

  lemma {:induction false} SortedLaw(s: seq<int>)
    ensures NonDecreasing(Sorted(s)) && multiset(Sorted(s)) == multiset(s)
  {
    if s != [] {
      SortedLaw(s[1..]);
      InsertKeeps(s[0], Sorted(s[1..]));
      assert s == [s[0]] + s[1..];
    }
  }

  lemma {:induction false} DistinctCounts(s: seq<int>)
    ensures Distinct(s) <==> forall x :: multiset(s)[x] <= 1
  {
    if s != [] {
      var rest := s[1..];
      assert s == [s[0]] + rest;
      DistinctCounts(rest);
      if Distinct(s) {
        assert Distinct(rest);
        assert s[0] !in rest;
      }
      if forall x :: multiset(s)[x] <= 1 {
        assert forall x :: multiset(rest)[x] <= multiset(s)[x];
        assert s[0] !in multiset(rest) && s[0] !in rest;
      }
    }
  }

  /** Sorting distinct numbers makes them strictly increase. */
  lemma SortedIncreasing(s: seq<int>)
    requires Distinct(s)
    ensures Increasing(Sorted(s))
  {
    SortedLaw(s);
    DistinctCounts(s);
    DistinctCounts(Sorted(s));
  }

  /** One strictly increasing sequence for each set of numbers. */
  lemma {:induction false} IncreasingUnique(a: seq<int>, b: seq<int>)
    requires Increasing(a) && Increasing(b) && forall x :: x in a <==> x in b
    ensures a == b
  {
    assert a == [] || (a[0] in a && a[0] in b);
    assert b == [] || (b[0] in b && b[0] in a);
    if a != [] && b != [] {
      assert a[0] == b[0];
      forall x ensures x in a[1..] <==> x in b[1..] {
        assert x in a <==> x == a[0] || x in a[1..];
        assert x in b <==> x == b[0] || x in b[1..];
      }
      IncreasingUnique(a[1..], b[1..]);
      assert a == [a[0]] + a[1..] && b == [b[0]] + b[1..];
    }
  }

  // ----- the views of one observation time -----

  function EndpointView(line: Line, endpoint: Endpoint, seen: Seen, current: Time, interval: Time): EndView {
    var minus := endpoint == Minus(line);
    if endpoint !in seen.ends then EndView(line.id, endpoint, minus, LineUnknown, None, None, None, [])
    else
      var o := seen.ends[endpoint];
      var condition :=
        if Expired(o.event.observedAt, current, interval) then Stale
        else if !o.matches then Contradictory
        else if Direct(o.event.state) then Single(o.event.state) else LineUnknown;
      EndView(line.id, endpoint, minus, condition, Some(o.event.state), Some(o.event.observedAt), Some(o.matches),
              [o.event.sequence])
  }

  function LineCondition(minus: EndView, plus: EndView): Condition {
    if minus.observedAt.None? && plus.observedAt.None? then LineUnknown
    else if minus.condition.Stale? || plus.condition.Stale? then Stale
    else if minus.observedAt.None? || plus.observedAt.None? then LineUnknown
    else if minus.condition.Contradictory? || plus.condition.Contradictory? then Contradictory
    else if minus.lastKnown.Some? && plus.lastKnown.Some? && Direct(minus.lastKnown.value)
      && Direct(plus.lastKnown.value)
      then PairedCondition(minus.lastKnown.value, plus.lastKnown.value)
    else LineUnknown
  }

  function ReconcileLine(line: Line, seen: Seen, current: Time, interval: Time): LineView {
    var minus := EndpointView(line, Minus(line), seen, current, interval);
    var plus := EndpointView(line, Plus(line), seen, current, interval);
    LineView(line.id, LineCondition(minus, plus), Sorted(minus.support + plus.support))
  }

  /** An endpoint freshly reports its line down, and reports what its configuration expects. */
  predicate FreshlyDown(endpoint: Endpoint, seen: Seen, current: Time, interval: Time) {
    && endpoint in seen.ends
    && var o := seen.ends[endpoint];
       !Expired(o.event.observedAt, current, interval) && o.matches && o.event.state.Down?
  }

  /** The sequences of the peers across `lines` that freshly report their end down. */
  function PeersDown(lines: seq<Line>, imp: int, seen: Seen, current: Time, interval: Time): seq<int> {
    if lines == [] then []
    else
      var (rest, line) := (lines[..|lines| - 1], lines[|lines| - 1]);
      var peer := Peer(line, Local(line, imp));
      PeersDown(rest, imp, seen, current, interval) +
      if FreshlyDown(peer, seen, current, interval) then [seen.ends[peer].event.sequence] else []
  }

  /** An IMP's own report is overdue. */
  predicate Overdue(imp: int, seen: Seen, started: Time, current: Time, interval: Time) {
    if imp in seen.imps then Expired(seen.imps[imp].observedAt, current, interval)
    else Expired(started, current, interval)
  }

  function OwnSupport(imp: int, seen: Seen): seq<int> {
    if imp in seen.imps then [seen.imps[imp].sequence] else []
  }

  function ReconcileImp(imp: int, lines: seq<Line>, seen: Seen, started: Time, current: Time, interval: Time): ImpView {
    if !Overdue(imp, seen, started, current, interval) then
      ImpView(imp, if imp in seen.imps then ImpUp else ImpUnknown, OwnSupport(imp, seen))
    else
      var incident := IncidentLines(lines, imp);
      var down := PeersDown(incident, imp, seen, current, interval);
      if |down| >= 2 && |down| == |incident|
        then ImpView(imp, ImpPartitioned, Sorted(OwnSupport(imp, seen) + down))
      else ImpView(imp, ImpStale, Sorted(OwnSupport(imp, seen)))
  }

  /** All configured IMPs, ascending. */
  function ImpNumbers(lines: seq<Line>): seq<int> {
    if lines == [] then []
    else
      var (rest, line) := (ImpNumbers(lines[..|lines| - 1]), lines[|lines| - 1]);
      Add(line.second.imp, Add(line.first.imp, rest))
  }

  function Add(x: int, s: seq<int>): seq<int> { if x in s then s else Insert(x, s) }

  function EndViews(lines: seq<Line>, seen: Seen, current: Time, interval: Time): seq<EndView> {
    if lines == [] then []
    else
      var line := lines[|lines| - 1];
      EndViews(lines[..|lines| - 1], seen, current, interval) +
      [EndpointView(line, Minus(line), seen, current, interval),
       EndpointView(line, Plus(line), seen, current, interval)]
  }

  function View(lines: seq<Line>, seen: Seen, started: Time, current: Time, interval: Time): Views {
    var imps := ImpNumbers(lines);
    Views(seq(|lines|, i requires 0 <= i < |lines| => ReconcileLine(lines[i], seen, current, interval)),
          seq(|imps|, i requires 0 <= i < |imps| => ReconcileImp(imps[i], lines, seen, started, current, interval)),
          EndViews(lines, seen, current, interval))
  }

  // ----- aging -----

  /** With no new observation a line keeps its condition or becomes stale, and stale is final. */
  lemma LineAges(line: Line, seen: Seen, now: Time, later: Time, interval: Time)
    requires now <= later
    ensures var (a, b) := (ReconcileLine(line, seen, now, interval), ReconcileLine(line, seen, later, interval));
      && (b.condition == a.condition || b.condition.Stale?) && (a.condition.Stale? ==> b.condition.Stale?)
      && a.support == b.support
  {
    hide PairedCondition, Sorted;
  }

  lemma {:induction false} PeersDownShrinks(lines: seq<Line>, imp: int, seen: Seen, now: Time, later: Time,
                                            interval: Time)
    requires now <= later
    ensures |PeersDown(lines, imp, seen, later, interval)| <= |PeersDown(lines, imp, seen, now, interval)| <= |lines|
  {
    if lines != [] {
      PeersDownShrinks(lines[..|lines| - 1], imp, seen, now, later, interval);
    }
  }

  predicate ImpMoves(a: Reach, b: Reach) {
    a == b || (a.ImpUp? && (b.ImpPartitioned? || b.ImpStale?)) || (a.ImpUnknown? && (b.ImpPartitioned? || b.ImpStale?))
    || (a.ImpPartitioned? && b.ImpStale?)
  }

  /** With no new observation an IMP only moves from up or unknown to partitioned to stale. */
  lemma ImpAges(imp: int, lines: seq<Line>, seen: Seen, started: Time, now: Time, later: Time, interval: Time)
    requires now <= later
    ensures ImpMoves(ReconcileImp(imp, lines, seen, started, now, interval).reach,
                     ReconcileImp(imp, lines, seen, started, later, interval).reach)
  {
    hide Sorted, PeersDown, IncidentLines;
    PeersDownShrinks(IncidentLines(lines, imp), imp, seen, now, later, interval);
  }

  lemma {:induction false} AllPeersDown(lines: seq<Line>, imp: int, seen: Seen, current: Time, interval: Time)
    ensures |PeersDown(lines, imp, seen, current, interval)| <= |lines|
    ensures |PeersDown(lines, imp, seen, current, interval)| == |lines| <==>
      forall i :: 0 <= i < |lines| ==> FreshlyDown(Peer(lines[i], Local(lines[i], imp)), seen, current, interval)
  {
    hide FreshlyDown, Peer, Local;
    if lines != [] {
      var rest := lines[..|lines| - 1];
      AllPeersDown(rest, imp, seen, current, interval);
      assert forall i :: 0 <= i < |rest| ==> rest[i] == lines[i];
    }
  }

  /** Partitioned says exactly this: the IMP's own report is overdue, and the far ends of all
      its lines, of which there are at least two, freshly report down as configured. */
  lemma PartitionedMeans(imp: int, lines: seq<Line>, seen: Seen, started: Time, current: Time, interval: Time)
    ensures ReconcileImp(imp, lines, seen, started, current, interval).reach.ImpPartitioned? <==>
      && Overdue(imp, seen, started, current, interval) && |IncidentLines(lines, imp)| >= 2
      && forall i :: 0 <= i < |IncidentLines(lines, imp)| ==>
           FreshlyDown(Peer(IncidentLines(lines, imp)[i], Local(IncidentLines(lines, imp)[i], imp)), seen, current,
                       interval)
  {
    hide Sorted, PeersDown, FreshlyDown, Peer, Local, IncidentLines;
    AllPeersDown(IncidentLines(lines, imp), imp, seen, current, interval);
  }

  // ----- the declared order of a line's ends does not matter -----

  predicate SameEnds(a: Line, b: Line) { b == a || b == Line(a.id, a.second, a.first) }

  /** The same lines, any of them declared the other way round. */
  predicate SameLines(a: seq<Line>, b: seq<Line>) {
    |a| == |b| && forall i :: 0 <= i < |a| ==> a[i].first.imp != a[i].second.imp && SameEnds(a[i], b[i])
  }

  lemma {:induction false} SameIncident(a: seq<Line>, b: seq<Line>, imp: int)
    requires SameLines(a, b)
    ensures SameLines(IncidentLines(a, imp), IncidentLines(b, imp))
  {
    if a != [] {
      SameIncident(a[..|a| - 1], b[..|b| - 1], imp);
    }
  }

  lemma {:induction false} SamePeersDown(a: seq<Line>, b: seq<Line>, imp: int, seen: Seen, current: Time,
                                         interval: Time)
    requires SameLines(a, b) && forall i :: 0 <= i < |a| ==> Incident(a[i], imp)
    ensures PeersDown(a, imp, seen, current, interval) == PeersDown(b, imp, seen, current, interval)
  {
    hide FreshlyDown;
    if a != [] {
      SamePeersDown(a[..|a| - 1], b[..|b| - 1], imp, seen, current, interval);
    }
  }

  lemma {:induction false} IncidentAreIncident(lines: seq<Line>, imp: int)
    ensures forall i :: 0 <= i < |IncidentLines(lines, imp)| ==> Incident(IncidentLines(lines, imp)[i], imp)
  {
    if lines != [] {
      IncidentAreIncident(lines[..|lines| - 1], imp);
    }
  }

  lemma {:induction false} NumbersAscend(lines: seq<Line>)
    ensures Increasing(ImpNumbers(lines))
    ensures forall x :: x in ImpNumbers(lines) <==> exists i :: 0 <= i < |lines| && Incident(lines[i], x)
  {
    if lines != [] {
      var (rest, line) := (lines[..|lines| - 1], lines[|lines| - 1]);
      NumbersAscend(rest);
      AddAscends(line.first.imp, ImpNumbers(rest));
      AddAscends(line.second.imp, Add(line.first.imp, ImpNumbers(rest)));
      forall x ensures x in ImpNumbers(lines) <==> exists i :: 0 <= i < |lines| && Incident(lines[i], x) {
        if i :| 0 <= i < |lines| && Incident(lines[i], x) {
          if i < |rest| { assert Incident(rest[i], x); }
        }
        if x in ImpNumbers(rest) {
          var i :| 0 <= i < |rest| && Incident(rest[i], x);
          assert Incident(lines[i], x);
        }
        assert x == line.first.imp || x == line.second.imp <==> Incident(lines[|lines| - 1], x);
      }
    }
  }

  lemma AddAscends(x: int, s: seq<int>)
    requires Increasing(s)
    ensures Increasing(Add(x, s)) && forall y :: y in Add(x, s) <==> y == x || y in s
  {
    if x !in s {
      InsertKeeps(x, s);
      var r := Insert(x, s);
      forall y ensures y in r <==> y == x || y in s {
        assert y in r <==> y in multiset(r);
      }
      DistinctCounts(s);
      assert forall y :: multiset(r)[y] <= 1;
      DistinctCounts(r);
    }
  }

  /** Swapping the declared ends of any lines changes nothing in the views of what was seen. */
  lemma SameView(a: seq<Line>, b: seq<Line>, seen: Seen, started: Time, current: Time, interval: Time)
    requires SameLines(a, b)
    ensures View(a, seen, started, current, interval) == View(b, seen, started, current, interval)
  {
    hide ReconcileLine, ReconcileImp, EndViews, ImpNumbers;
    SameNumbers(a, b);
    forall i | 0 <= i < |a|
      ensures ReconcileLine(a[i], seen, current, interval) == ReconcileLine(b[i], seen, current, interval)
    {
      SameLine(a[i], b[i], seen, current, interval);
    }
    SameEndViews(a, b, seen, current, interval);
    forall imp
      ensures ReconcileImp(imp, a, seen, started, current, interval) ==
        ReconcileImp(imp, b, seen, started, current, interval)
    {
      SameImp(imp, a, b, seen, started, current, interval);
    }
  }

  lemma SameLine(a: Line, b: Line, seen: Seen, current: Time, interval: Time)
    requires SameEnds(a, b) && a.first.imp != a.second.imp
    ensures ReconcileLine(a, seen, current, interval) == ReconcileLine(b, seen, current, interval)
  {
    hide LineCondition, Sorted;
  }

  lemma SameImp(imp: int, a: seq<Line>, b: seq<Line>, seen: Seen, started: Time, current: Time, interval: Time)
    requires SameLines(a, b)
    ensures ReconcileImp(imp, a, seen, started, current, interval) ==
      ReconcileImp(imp, b, seen, started, current, interval)
  {
    hide IncidentLines, PeersDown, Sorted;
    SameIncident(a, b, imp);
    IncidentAreIncident(a, imp);
    SamePeersDown(IncidentLines(a, imp), IncidentLines(b, imp), imp, seen, current, interval);
  }

  lemma SameNumbers(a: seq<Line>, b: seq<Line>)
    requires SameLines(a, b)
    ensures ImpNumbers(a) == ImpNumbers(b)
  {
    NumbersAscend(a);
    NumbersAscend(b);
    forall x ensures x in ImpNumbers(a) <==> x in ImpNumbers(b) {
      assert forall i :: 0 <= i < |a| ==> (Incident(a[i], x) <==> Incident(b[i], x));
    }
    IncreasingUnique(ImpNumbers(a), ImpNumbers(b));
  }

  lemma {:induction false} SameEndViews(a: seq<Line>, b: seq<Line>, seen: Seen, current: Time, interval: Time)
    requires SameLines(a, b)
    ensures EndViews(a, seen, current, interval) == EndViews(b, seen, current, interval)
  {
    if a != [] {
      SameEndViews(a[..|a| - 1], b[..|b| - 1], seen, current, interval);
    }
  }

  // ----- the observations of a stream -----

  /** The configured line of an endpoint, as the source's dictionary gives it. */
  function LineAt(lines: seq<Line>, endpoint: Endpoint): Option<Line> {
    if lines == [] then None
    else if endpoint in Ends(lines[|lines| - 1]) then Some(lines[|lines| - 1])
    else LineAt(lines[..|lines| - 1], endpoint)
  }

  /** The line end an event is about, if it is about any. */
  function EndOf(e: Event): Option<Endpoint> {
    if e.kind.LineState? && e.subject.LineSubject? then Some(Endpoint(e.subject.imp, e.subject.line)) else None
  }

  function EventFault(lines: seq<Line>, e: Event): Option<Fault> {
    if EndOf(e).Some? && LineAt(lines, EndOf(e).value).Some? then
      if !e.source.TroubleSource? then Some(NotDirect)
      else if e.imp != EndOf(e).value.imp then Some(SourceMismatch)
      else if !Direct(e.state) then Some(UnsupportedState) else None
    else if e.kind.ImpReport? && e.imp in ImpNumbers(lines) then
      if e.subject != ImpSubject(e.imp) then Some(ReportSubject)
      else if !e.source.TroubleSource? || !e.state.Received? then Some(ReportKind) else None
    else None
  }

  function Note(lines: seq<Line>, seen: Seen, e: Event): Seen {
    if EndOf(e).Some? && LineAt(lines, EndOf(e).value).Some? then
      var endpoint := EndOf(e).value;
      var matches := MatchesExpectedPeer(e, LineAt(lines, endpoint).value, endpoint);
      seen.(ends := seen.ends[endpoint := Observation(e, matches)])
    else if e.kind.ImpReport? && e.imp in ImpNumbers(lines) then seen.(imps := seen.imps[e.imp := e])
    else seen
  }

  const NOTHING: Seen := Seen(map[], map[])

  function Noted(lines: seq<Line>, events: seq<Event>): Result<Seen, Fault> {
    if events == [] then Ok(NOTHING)
    else
      var e := events[|events| - 1];
      match Noted(lines, events[..|events| - 1])
      case Err(fault) => Err(fault)
      case Ok(seen) => if EventFault(lines, e).Some? then Err(EventFault(lines, e).value) else Ok(Note(lines, seen, e))
  }

  function StepFault(sequence: int, time: Option<Time>, e: Event, current: Time): Option<Fault> {
    if e.sequence <= sequence then Some(SequenceNotIncreasing)
    else if time.Some? && e.observedAt < time.value then Some(TimeDecreasing)
    else if e.observedAt > current then Some(EventInFuture) else None
  }

  function LastSequence(events: seq<Event>): int { if events == [] then -1 else events[|events| - 1].sequence }

  function OrderFault(events: seq<Event>, current: Time): Option<Fault> {
    if events == [] then None
    else
      var rest := events[..|events| - 1];
      if OrderFault(rest, current).Some? then OrderFault(rest, current)
      else StepFault(LastSequence(rest), LastTime(rest), events[|events| - 1], current)
  }

  /** The whole reducer. */
  function Reconciled(lines: seq<Line>, events: seq<Event>, started: Time, current: Time, interval: Time)
    : Result<Views, Fault>
  {
    if current < started then Err(ObservedBeforeStart)
    else if interval <= 0 then Err(BadInterval)
    else if OrderFault(events, current).Some? then Err(OrderFault(events, current).value)
    else
      match Noted(lines, events)
      case Err(fault) => Err(fault)
      case Ok(seen) => Ok(View(lines, seen, started, current, interval))
  }

  // ----- ... nor does it in what is seen -----

  lemma {:induction false} SameLineAt(a: seq<Line>, b: seq<Line>, endpoint: Endpoint)
    requires SameLines(a, b)
    ensures LineAt(a, endpoint).Some? <==> LineAt(b, endpoint).Some?
    ensures LineAt(a, endpoint).Some? ==>
      var (x, y) := (LineAt(a, endpoint).value, LineAt(b, endpoint).value);
      x.first.imp != x.second.imp && endpoint in Ends(x) && SameEnds(x, y)
  {
    if a != [] {
      SameLineAt(a[..|a| - 1], b[..|b| - 1], endpoint);
    }
  }

  lemma SameNote(a: seq<Line>, b: seq<Line>, seen: Seen, e: Event)
    requires SameLines(a, b)
    ensures EventFault(a, e) == EventFault(b, e) && Note(a, seen, e) == Note(b, seen, e)
  {
    hide ImpNumbers, LineAt, SameLines;
    SameNumbers(a, b);
    if EndOf(e).Some? {
      SameLineAt(a, b, EndOf(e).value);
    }
  }

  lemma {:induction false} SameNoted(a: seq<Line>, b: seq<Line>, events: seq<Event>)
    requires SameLines(a, b)
    ensures Noted(a, events) == Noted(b, events)
  {
    hide EventFault, Note, SameLines;
    if events != [] {
      var (rest, e) := (events[..|events| - 1], events[|events| - 1]);
      SameNoted(a, b, rest);
      if Noted(a, rest).Ok? {
        SameNote(a, b, Noted(a, rest).value, e);
      }
    }
  }

  /** Swapping the declared ends of any lines changes nothing in what the reducer answers, be
      it the views or the fault it raises. */
  lemma SwappedEnds(a: seq<Line>, b: seq<Line>, events: seq<Event>, started: Time, current: Time, interval: Time)
    requires SameLines(a, b)
    ensures Reconciled(a, events, started, current, interval) == Reconciled(b, events, started, current, interval)
  {
    hide View, Noted, OrderFault, SameLines;
    SameNoted(a, b, events);
    if Noted(a, events).Ok? {
      SameView(a, b, Noted(a, events).value, started, current, interval);
    }
  }

  predicate Ordered(events: seq<Event>, current: Time) {
    forall i :: 0 <= i < |events| ==>
      && events[i].observedAt <= current && events[i].sequence >= 0
      && (i > 0 ==> events[i - 1].sequence < events[i].sequence && events[i - 1].observedAt <= events[i].observedAt)
  }

  lemma {:induction false} OrderedExactly(events: seq<Event>, current: Time)
    ensures OrderFault(events, current).None? <==> Ordered(events, current)
  {
    if events != [] {
      var rest := events[..|events| - 1];
      OrderedExactly(rest, current);
      assert forall i :: 0 <= i < |rest| ==> rest[i] == events[i];
    }
  }

  // ----- what the fold holds -----

  predicate AboutEnd(lines: seq<Line>, e: Event, endpoint: Endpoint) {
    EndOf(e) == Some(endpoint) && LineAt(lines, endpoint).Some?
  }

  predicate AboutImp(lines: seq<Line>, e: Event, imp: int) {
    e.kind.ImpReport? && e.imp == imp && imp in ImpNumbers(lines)
  }

  /** Of a line end exactly the last event about it is held, and nothing if there is none. */
  lemma {:induction false} NewestEnd(lines: seq<Line>, events: seq<Event>, endpoint: Endpoint, last: int)
    requires Noted(lines, events).Ok? && -1 <= last < |events|
      && (last >= 0 ==> AboutEnd(lines, events[last], endpoint))
    requires forall j :: last < j < |events| ==> !AboutEnd(lines, events[j], endpoint)
    ensures var ends := Noted(lines, events).value.ends;
      (endpoint in ends <==> last >= 0) && (last >= 0 ==> ends[endpoint].event == events[last])
  {
    hide EventFault, MatchesExpectedPeer, ImpNumbers, LineAt;
    if events != [] && last < |events| - 1 {
      NewestEnd(lines, events[..|events| - 1], endpoint, last);
    }
  }

  /** Of an IMP exactly its last report is held, and nothing if there is none. */
  lemma {:induction false} NewestReport(lines: seq<Line>, events: seq<Event>, imp: int, last: int)
    requires Noted(lines, events).Ok? && -1 <= last < |events| && (last >= 0 ==> AboutImp(lines, events[last], imp))
    requires forall j :: last < j < |events| ==> !AboutImp(lines, events[j], imp)
    ensures var imps := Noted(lines, events).value.imps;
      (imp in imps <==> last >= 0) && (last >= 0 ==> imps[imp] == events[last])
  {
    hide EventFault, MatchesExpectedPeer, ImpNumbers, LineAt;
    if events != [] && last < |events| - 1 {
      NewestReport(lines, events[..|events| - 1], imp, last);
    }
  }

  /** Everything held is an event of the stream about that very end or IMP. */
  ghost predicate From(seen: Seen, events: seq<Event>) {
    && (forall endpoint :: endpoint in seen.ends ==>
          EndOf(seen.ends[endpoint].event) == Some(endpoint) && Occurs(seen.ends[endpoint].event, events))
    && (forall imp :: imp in seen.imps ==> seen.imps[imp].kind.ImpReport? && Occurs(seen.imps[imp], events))
  }

  predicate Occurs(e: Event, events: seq<Event>) { exists i :: 0 <= i < |events| && events[i] == e }

  lemma NothingFrom()
    ensures From(NOTHING, [])
  {
  }

  lemma {:induction false} NotedFrom(lines: seq<Line>, events: seq<Event>)
    requires Noted(lines, events).Ok?
    ensures From(Noted(lines, events).value, events)
  {
    hide EventFault, Note, From;
    if events == [] {
      NothingFrom();
    } else {
      var rest := events[..|events| - 1];
      NotedFrom(lines, rest);
      NoteFrom(lines, Noted(lines, rest).value, rest, events[|events| - 1]);
      assert rest + [events[|events| - 1]] == events;
    }
  }

  lemma NoteFrom(lines: seq<Line>, seen: Seen, rest: seq<Event>, e: Event)
    requires From(seen, rest)
    ensures From(Note(lines, seen, e), rest + [e])
  {
    hide MatchesExpectedPeer, ImpNumbers, LineAt;
    forall x | Occurs(x, rest) ensures Occurs(x, rest + [e]) {
      var i :| 0 <= i < |rest| && rest[i] == x;
      assert (rest + [e])[i] == x;
    }
    assert (rest + [e])[|rest|] == e && Occurs(e, rest + [e]);
  }

  // ----- supporting sequences -----

  predicate Sequenced(events: seq<Event>) {
    forall i, j :: 0 <= i < j < |events| ==> events[i].sequence < events[j].sequence
  }

  lemma {:induction false} OrderedSequenced(events: seq<Event>, current: Time)
    requires Ordered(events, current)
    ensures Sequenced(events)
  {
    if |events| >= 2 {
      var rest := events[..|events| - 1];
      OrderedSequenced(rest, current);
      assert forall i :: 0 <= i < |rest| ==> rest[i].sequence <= rest[|rest| - 1].sequence;
    }
  }

  /** Observations of different ends are different events, with different sequences. */
  lemma EndsDiffer(seen: Seen, events: seq<Event>, a: Endpoint, b: Endpoint)
    requires From(seen, events) && Sequenced(events) && a in seen.ends && b in seen.ends && a != b
    ensures seen.ends[a].event.sequence != seen.ends[b].event.sequence
  {
  }

  lemma ReportDiffers(seen: Seen, events: seq<Event>, a: Endpoint, imp: int)
    requires From(seen, events) && Sequenced(events) && a in seen.ends && imp in seen.imps
    ensures seen.ends[a].event.sequence != seen.imps[imp].sequence
  {
  }

  predicate Apart(lines: seq<Line>) { forall i, j :: 0 <= i < j < |lines| ==> Ends(lines[i]) !! Ends(lines[j]) }

  lemma {:induction false} IncidentApart(lines: seq<Line>, imp: int)
    requires Apart(lines)
    ensures Apart(IncidentLines(lines, imp))
    ensures forall i :: 0 <= i < |IncidentLines(lines, imp)| ==>
      exists j :: 0 <= j < |lines| && lines[j] == IncidentLines(lines, imp)[i]
  {
    if lines != [] {
      var rest := lines[..|lines| - 1];
      IncidentApart(rest, imp);
      assert forall j :: 0 <= j < |rest| ==> rest[j] == lines[j];
      assert lines[|lines| - 1] == lines[|lines| - 1];
    }
  }

  ghost predicate FromEnds(x: int, lines: seq<Line>, seen: Seen) {
    exists i :: 0 <= i < |lines| && Heard(x, lines[i], seen)
  }

  /** `x` is the sequence of an observation held for an end of the line. */
  predicate Heard(x: int, line: Line, seen: Seen) {
    (line.first in seen.ends && seen.ends[line.first].event.sequence == x)
    || (line.second in seen.ends && seen.ends[line.second].event.sequence == x)
  }

  lemma {:induction false} PeersDownDistinct(lines: seq<Line>, imp: int, seen: Seen, events: seq<Event>, current: Time,
                                             interval: Time)
    requires Apart(lines) && From(seen, events) && Sequenced(events)
    ensures Distinct(PeersDown(lines, imp, seen, current, interval))
    ensures forall x :: x in PeersDown(lines, imp, seen, current, interval) ==> FromEnds(x, lines, seen)
  {
    if lines != [] {
      var (rest, line) := (lines[..|lines| - 1], lines[|lines| - 1]);
      PeersDownDistinct(rest, imp, seen, events, current, interval);
      hide From, Sequenced;
      var peer := Peer(line, Local(line, imp));
      forall x | x in PeersDown(rest, imp, seen, current, interval)
        ensures FromEnds(x, lines, seen) && (peer in seen.ends ==> x != seen.ends[peer].event.sequence)
      {
        var i :| 0 <= i < |rest| && Heard(x, rest[i], seen);
        assert Heard(x, lines[i], seen) && Ends(lines[i]) !! Ends(line);
        if peer in seen.ends {
          if rest[i].first in seen.ends { EndsDiffer(seen, events, rest[i].first, peer); }
          if rest[i].second in seen.ends { EndsDiffer(seen, events, rest[i].second, peer); }
        }
      }
      assert peer in seen.ends ==> Heard(seen.ends[peer].event.sequence, lines[|lines| - 1], seen);
      var down := PeersDown(rest, imp, seen, current, interval);
      forall i, j | 0 <= i < j < |PeersDown(lines, imp, seen, current, interval)|
        ensures PeersDown(lines, imp, seen, current, interval)[i] != PeersDown(lines, imp, seen, current, interval)[j]
      {
        assert down[i] in down;
      }
    }
  }

  predicate GoodSupport(support: seq<int>, events: seq<Event>) {
    Increasing(support) && forall x :: x in support ==> Sequence(x, events)
  }

  predicate Sequence(x: int, events: seq<Event>) { exists i :: 0 <= i < |events| && events[i].sequence == x }

  lemma SortedGood(s: seq<int>, events: seq<Event>)
    requires Distinct(s) && forall x :: x in s ==> Sequence(x, events)
    ensures GoodSupport(Sorted(s), events)
  {
    SortedLaw(s);
    SortedIncreasing(s);
    forall x | x in Sorted(s) ensures Sequence(x, events) {
      assert x in multiset(Sorted(s)) && x in s;
    }
  }

  lemma LineSupport(line: Line, seen: Seen, events: seq<Event>, current: Time, interval: Time)
    requires line.first.imp != line.second.imp && From(seen, events) && Sequenced(events)
    ensures GoodSupport(ReconcileLine(line, seen, current, interval).support, events)
  {
    hide LineCondition, Sequenced, GoodSupport;
    var minus := EndpointView(line, Minus(line), seen, current, interval);
    var plus := EndpointView(line, Plus(line), seen, current, interval);
    if Minus(line) in seen.ends && Plus(line) in seen.ends {
      EndsDiffer(seen, events, Minus(line), Plus(line));
    }
    SortedGood(minus.support + plus.support, events);
  }

  lemma HeardIsReal(x: int, lines: seq<Line>, seen: Seen, events: seq<Event>)
    requires From(seen, events) && FromEnds(x, lines, seen)
    ensures Sequence(x, events)
  {
  }

  lemma ImpSupport(imp: int, lines: seq<Line>, seen: Seen, events: seq<Event>, started: Time, current: Time,
                   interval: Time)
    requires Apart(lines) && From(seen, events) && Sequenced(events)
    ensures GoodSupport(ReconcileImp(imp, lines, seen, started, current, interval).support, events)
  {
    hide IncidentLines, PeersDown, GoodSupport, Sequenced;
    var (incident, own) := (IncidentLines(lines, imp), OwnSupport(imp, seen));
    IncidentApart(lines, imp);
    PeersDownDistinct(incident, imp, seen, events, current, interval);
    var down := PeersDown(incident, imp, seen, current, interval);
    OneIsGood(own, events);
    assert forall x :: x in own ==> Sequence(x, events);
    forall x | x in down ensures Sequence(x, events) && x !in own {
      HeardIsReal(x, incident, seen, events);
      if imp in seen.imps {
        var i :| 0 <= i < |incident| && Heard(x, incident[i], seen);
        if incident[i].first in seen.ends { ReportDiffers(seen, events, incident[i].first, imp); }
        if incident[i].second in seen.ends { ReportDiffers(seen, events, incident[i].second, imp); }
      }
    }
    SortedGood(own, events);
    forall i, j | 0 <= i < j < |own + down| ensures (own + down)[i] != (own + down)[j] {
      assert (own + down)[j] == down[j - |own|] && (own + down)[j] in down;
      assert i >= |own| ==> (own + down)[i] == down[i - |own|];
    }
    SortedGood(own + down, events);
  }

  lemma OneIsGood(own: seq<int>, events: seq<Event>)
    requires |own| <= 1 && forall x :: x in own ==> Sequence(x, events)
    ensures GoodSupport(own, events)
  {
  }

  /** Whatever the reducer concludes, the support it cites is a strictly increasing list of
      sequences of events really in the stream. */
  lemma SupportIsReal(lines: seq<Line>, events: seq<Event>, started: Time, current: Time, interval: Time)
    requires Nominal(lines) && Reconciled(lines, events, started, current, interval).Ok?
    ensures var views := Reconciled(lines, events, started, current, interval).value;
      && (forall i :: 0 <= i < |views.lines| ==> GoodSupport(views.lines[i].support, events))
      && (forall i :: 0 <= i < |views.imps| ==> GoodSupport(views.imps[i].support, events))
      && AllGood(views.ends, events)
  {
    hide Ordered, OrderFault, GoodSupport, From, Sequenced, View;
    NotedFrom(lines, events);
    OrderedExactly(events, current);
    OrderedSequenced(events, current);
    ViewSupport(lines, Noted(lines, events).value, events, started, current, interval);
  }

  lemma ViewSupport(lines: seq<Line>, seen: Seen, events: seq<Event>, started: Time, current: Time, interval: Time)
    requires Nominal(lines) && From(seen, events) && Sequenced(events)
    ensures var views := View(lines, seen, started, current, interval);
      && (forall i :: 0 <= i < |views.lines| ==> GoodSupport(views.lines[i].support, events))
      && (forall i :: 0 <= i < |views.imps| ==> GoodSupport(views.imps[i].support, events))
      && AllGood(views.ends, events)
  {
    hide From, Sequenced, GoodSupport, ReconcileLine, ReconcileImp, ImpNumbers, EndViews;
    forall i | 0 <= i < |lines| ensures GoodSupport(ReconcileLine(lines[i], seen, current, interval).support, events) {
      LineSupport(lines[i], seen, events, current, interval);
    }
    forall imp ensures GoodSupport(ReconcileImp(imp, lines, seen, started, current, interval).support, events) {
      ImpSupport(imp, lines, seen, events, started, current, interval);
    }
    EndSupports(lines, seen, events, current, interval);
  }

  predicate AllGood(ends: seq<EndView>, events: seq<Event>) {
    forall i :: 0 <= i < |ends| ==> GoodSupport(ends[i].support, events)
  }

  lemma EndSupport(line: Line, endpoint: Endpoint, seen: Seen, events: seq<Event>, current: Time, interval: Time)
    requires From(seen, events)
    ensures GoodSupport(EndpointView(line, endpoint, seen, current, interval).support, events)
  {
    if endpoint in seen.ends {
      assert Occurs(seen.ends[endpoint].event, events);
    }
    OneIsGood(EndpointView(line, endpoint, seen, current, interval).support, events);
  }

  lemma {:induction false} EndSupports(lines: seq<Line>, seen: Seen, events: seq<Event>, current: Time, interval: Time)
    requires From(seen, events)
    ensures AllGood(EndViews(lines, seen, current, interval), events)
  {
    hide GoodSupport, From, EndpointView;
    if lines != [] {
      var line := lines[|lines| - 1];
      EndSupports(lines[..|lines| - 1], seen, events, current, interval);
      EndSupport(line, Minus(line), seen, events, current, interval);
      EndSupport(line, Plus(line), seen, events, current, interval);
      var rest := EndViews(lines[..|lines| - 1], seen, current, interval);
      var last := [EndpointView(line, Minus(line), seen, current, interval),
                   EndpointView(line, Plus(line), seen, current, interval)];
      assert EndViews(lines, seen, current, interval) == rest + last;
    }
  }

  // ----- totality -----

  /** The states held are those that can be paired, so no lookup can fail. */
  lemma {:induction false} NotedDirect(lines: seq<Line>, events: seq<Event>)
    requires Noted(lines, events).Ok?
    ensures forall endpoint :: endpoint in Noted(lines, events).value.ends ==>
      Direct(Noted(lines, events).value.ends[endpoint].event.state)
  {
    hide MatchesExpectedPeer, ImpNumbers, LineAt;
    if events != [] {
      NotedDirect(lines, events[..|events| - 1]);
    }
  }

  lemma ShapedHasNoFault(header: Header, lines: seq<Line>, e: Event)
    requires ShapeError(header, e).None?
    ensures EventFault(lines, e).None?
  {
    hide ImpNumbers, LineAt;
  }

  lemma {:induction false} AcceptedIsNoted(header: Header, lines: seq<Line>, events: seq<Event>)
    requires Accepted(header, events)
    ensures Noted(lines, events).Ok?
  {
    hide EventFault, ShapeError;
    if events != [] {
      AcceptedIsNoted(header, lines, events[..|events| - 1]);
      ShapedHasNoFault(header, lines, events[|events| - 1]);
    }
  }

  /** Every stream the historical reader accepts can be reduced, at any time from the start of
      the run and its last event on, over any topology. */
  lemma NeverRaises(header: Header, lines: seq<Line>, events: seq<Event>, current: Time, interval: Time)
    requires StreamError(header, events).None? && interval > 0 && header.startedAt <= current
    requires events != [] ==> events[|events| - 1].observedAt <= current
    ensures Reconciled(lines, events, header.startedAt, current, interval).Ok?
  {
    AcceptedExactly(header, events);
    AcceptedIsNoted(header, lines, events);
    TimesBounded(header, events);
    OrderedExactly(events, current);
  }

  lemma {:induction false} TimesBounded(header: Header, events: seq<Event>)
    requires Accepted(header, events)
    ensures forall i :: 0 <= i < |events| ==> events[i].observedAt <= events[|events| - 1].observedAt
  {
    hide ShapeError;
    if |events| >= 2 {
      var rest := events[..|events| - 1];
      TimesBounded(header, rest);
      assert forall i :: 0 <= i < |rest| ==> rest[i].observedAt <= rest[|rest| - 1].observedAt;
    }
  }

  /** Reducing the same events later: it still succeeds, every line keeps its condition or is
      stale for good, and every IMP only moves towards stale. */
  lemma ConditionsAge(lines: seq<Line>, events: seq<Event>, started: Time, now: Time, later: Time, interval: Time)
    requires now <= later && Reconciled(lines, events, started, now, interval).Ok?
    ensures Reconciled(lines, events, started, later, interval).Ok?
    ensures var (a, b) := (Reconciled(lines, events, started, now, interval).value,
                           Reconciled(lines, events, started, later, interval).value);
      && |a.lines| == |b.lines| == |lines| && |a.imps| == |b.imps|
      && (forall i :: 0 <= i < |lines| ==>
            b.lines[i].condition in {a.lines[i].condition, Stale} && b.lines[i].support == a.lines[i].support)
      && (forall i :: 0 <= i < |a.imps| ==>
          b.imps[i].imp == a.imps[i].imp && ImpMoves(a.imps[i].reach, b.imps[i].reach))
  {
    OrderedExactly(events, now);
    OrderedExactly(events, later);
    var (seen, imps) := (Noted(lines, events).value, ImpNumbers(lines));
    hide Noted, OrderFault, ReconcileLine, ReconcileImp, ImpNumbers, EndViews, ImpMoves;
    forall i | 0 <= i < |lines| ensures ReconcileLine(lines[i], seen, later, interval).condition
      in {ReconcileLine(lines[i], seen, now, interval).condition, Stale}
      && ReconcileLine(lines[i], seen, later, interval).support == ReconcileLine(lines[i], seen, now, interval).support
    {
      LineAges(lines[i], seen, now, later, interval);
    }
    forall i | 0 <= i < |imps| ensures ImpMoves(ReconcileImp(imps[i], lines, seen, started, now, interval).reach,
      ReconcileImp(imps[i], lines, seen, started, later, interval).reach)
    {
      ImpAges(imps[i], lines, seen, started, now, later, interval);
    }
    forall imp, time ensures ReconcileImp(imp, lines, seen, started, time, interval).imp == imp {
      ImpNamed(imp, lines, seen, started, time, interval);
    }
  }

  lemma ImpNamed(imp: int, lines: seq<Line>, seen: Seen, started: Time, time: Time, interval: Time)
    ensures ReconcileImp(imp, lines, seen, started, time, interval).imp == imp
  {
  }

  // ----- the reducer's loops -----

  method ValidateEventOrder(events: seq<Event>, current: Time) returns (fault: Option<Fault>)
    ensures fault == OrderFault(events, current)
  {
    var previousSequence, previousTime := -1, None;
    for i := 0 to |events|
      invariant OrderFault(events[..i], current).None?
      invariant previousSequence == LastSequence(events[..i]) && previousTime == LastTime(events[..i])
    {
      assert events[..i + 1][..i] == events[..i];
      fault := StepFault(previousSequence, previousTime, events[i], current);
      if fault.Some? {
        FirstOrderFault(events, current, i + 1);
        return;
      }
      previousSequence, previousTime := events[i].sequence, Some(events[i].observedAt);
    }
    assert events[..|events|] == events;
    return None;
  }

  lemma {:induction false} FirstOrderFault(events: seq<Event>, current: Time, k: nat)
    requires k <= |events| && OrderFault(events[..k], current).Some?
    ensures OrderFault(events, current) == OrderFault(events[..k], current)
  {
    if k == |events| {
      assert events[..k] == events;
    } else {
      assert events[..|events| - 1][..k] == events[..k];
      FirstOrderFault(events[..|events| - 1], current, k);
    }
  }

  lemma {:induction false} FirstNotedFault(lines: seq<Line>, events: seq<Event>, k: nat)
    requires k <= |events| && Noted(lines, events[..k]).Err?
    ensures Noted(lines, events) == Noted(lines, events[..k])
  {
    hide EventFault, Note;
    if k == |events| {
      assert events[..k] == events;
    } else {
      assert events[..|events| - 1][..k] == events[..k];
      FirstNotedFault(lines, events[..|events| - 1], k);
    }
  }

  /** The dictionary from endpoints to their lines. */
  method Endpoints(lines: seq<Line>) returns (endpoints: map<Endpoint, Line>)
    ensures forall endpoint :: endpoint in endpoints <==> LineAt(lines, endpoint).Some?
    ensures forall endpoint :: endpoint in endpoints ==> Some(endpoints[endpoint]) == LineAt(lines, endpoint)
  {
    endpoints := map[];
    for i := 0 to |lines|
      invariant forall endpoint :: endpoint in endpoints <==> LineAt(lines[..i], endpoint).Some?
      invariant forall endpoint :: endpoint in endpoints ==> Some(endpoints[endpoint]) == LineAt(lines[..i], endpoint)
    {
      assert lines[..i + 1][..i] == lines[..i];
      endpoints := endpoints[lines[i].first := lines[i]][lines[i].second := lines[i]];
    }
    assert lines[..|lines|] == lines;
  }

  /** One pass over the events, keeping only the newest observation of each end and IMP. */
  method Observe(lines: seq<Line>, events: seq<Event>) returns (result: Result<Seen, Fault>)
    ensures result == Noted(lines, events)
  {
    hide ImpNumbers, LineAt, MatchesExpectedPeer;
    var endpoints := Endpoints(lines);
    var imps := ImpNumbers(lines);
    var ends, reports := map[], map[];
    for i := 0 to |events|
      invariant Noted(lines, events[..i]) == Ok(Seen(ends, reports))
    {
      var e := events[i];
      assert events[..i + 1][..i] == events[..i];
      if e.kind.LineState? && e.subject.LineSubject? && Endpoint(e.subject.imp, e.subject.line) in endpoints {
        var endpoint := Endpoint(e.subject.imp, e.subject.line);
        var fault := EventFault(lines, e);
        if fault.Some? {
          FirstNotedFault(lines, events, i + 1);
          return Err(fault.value);
        }
        ends := ends[endpoint := Observation(e, MatchesExpectedPeer(e, endpoints[endpoint], endpoint))];
      } else if e.kind.ImpReport? && e.imp in imps {
        if e.subject != ImpSubject(e.imp) {
          FirstNotedFault(lines, events, i + 1);
          return Err(ReportSubject);
        }
        if !e.source.TroubleSource? || !e.state.Received? {
          FirstNotedFault(lines, events, i + 1);
          return Err(ReportKind);
        }
        reports := reports[e.imp := e];
      }
    }
    assert events[..|events|] == events;
    return Ok(Seen(ends, reports));
  }

  /** The peers of one IMP, collected line by line. */
  method ReconcileOneImp(imp: int, lines: seq<Line>, seen: Seen, started: Time, current: Time, interval: Time)
    returns (view: ImpView)
    ensures view == ReconcileImp(imp, lines, seen, started, current, interval)
  {
    var own := OwnSupport(imp, seen);
    if !Overdue(imp, seen, started, current, interval) {
      return ImpView(imp, if imp in seen.imps then ImpUp else ImpUnknown, own);
    }
    var incident := IncidentLines(lines, imp);
    var peerDown := [];
    for i := 0 to |incident|
      invariant peerDown == PeersDown(incident[..i], imp, seen, current, interval)
    {
      assert incident[..i + 1][..i] == incident[..i];
      var peer := Peer(incident[i], Local(incident[i], imp));
      if peer in seen.ends && !Expired(seen.ends[peer].event.observedAt, current, interval) && seen.ends[peer].matches
         && seen.ends[peer].event.state.Down? {
        peerDown := peerDown + [seen.ends[peer].event.sequence];
      }
    }
    assert incident[..|incident|] == incident;
    if |peerDown| >= 2 && |peerDown| == |incident| {
      return ImpView(imp, ImpPartitioned, Sorted(own + peerDown));
    }
    return ImpView(imp, ImpStale, Sorted(own));
  }

  method Reconcile(lines: seq<Line>, events: seq<Event>, started: Time, current: Time, interval: Time)
    returns (result: Result<Views, Fault>)
    ensures result == Reconciled(lines, events, started, current, interval)
  {
    hide ReconcileImp, ReconcileLine, EndpointView, Noted, OrderFault, ImpNumbers;
    if current < started { return Err(ObservedBeforeStart); }
    if interval <= 0 { return Err(BadInterval); }
    var fault := ValidateEventOrder(events, current);
    if fault.Some? { return Err(fault.value); }
    var observed := Observe(lines, events);
    if observed.Err? { return Err(observed.error); }
    var seen := observed.value;
    var ends, lineViews := [], [];
    for i := 0 to |lines|
      invariant ends == EndViews(lines[..i], seen, current, interval)
      invariant |lineViews| == i && forall k :: 0 <= k < i ==>
        lineViews[k] == ReconcileLine(lines[k], seen, current, interval)
    {
      assert lines[..i + 1][..i] == lines[..i];
      ends := ends + [EndpointView(lines[i], Minus(lines[i]), seen, current, interval),
                      EndpointView(lines[i], Plus(lines[i]), seen, current, interval)];
      lineViews := lineViews + [ReconcileLine(lines[i], seen, current, interval)];
    }
    assert lines[..|lines|] == lines;
    var imps, impViews := ImpNumbers(lines), [];
    for i := 0 to |imps|
      invariant |impViews| == i
      invariant forall k :: 0 <= k < i ==> impViews[k] == ReconcileImp(imps[k], lines, seen, started, current, interval)
    {
      var view := ReconcileOneImp(imps[i], lines, seen, started, current, interval);
      impViews := impViews + [view];
    }
    result := Ok(Views(lineViews, impViews, ends));
    assert result.value == View(lines, seen, started, current, interval);
  }

  // ----- pairing laws -----

  /** Exchanging what the two ends say exchanges minus and plus, and nothing else; two ends
      agree on a plain condition exactly when they say the same or one is unknown. */
  lemma PairingLaws(a: State, b: State)
    requires Direct(a) && Direct(b)
    ensures PairedCondition(b, a) == Mirror(PairedCondition(a, b))
    ensures PairedCondition(a, b).LineUp? <==> a.Up? && b.Up?
    ensures PairedCondition(a, b).Contradictory? <==> {a, b} == {Down, Looped}
    ensures PairedCondition(a, b).LineUnknown? <==> a.Unknown? || b.Unknown?
    ensures PairedCondition(a, b).MinusDown? <==> a.Down? && b.Up?
    ensures PairedCondition(a, b).MinusLooped? <==> a.Looped? && b.Up?
  {
    assert {Down, Looped} != {Down} && {Down, Looped} != {Looped};
    assert Down in {Down, Looped} && Looped in {Down, Looped};
  }
}
