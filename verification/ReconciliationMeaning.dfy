/**
 What the reducer's answers mean, said about the events of the stream: which condition each
 line and each end is in, and when an IMP is reached, from the last event about each.
 */
module ReconciliationMeaning {
  import opened Wrappers
  import opened HistoricalEvents
  import opened Reconciliation

  // ----- the last event about an end -----

  predicate About(e: Event, end: Endpoint) {
    e.kind.LineState? && e.subject == LineSubject(end.imp, end.interface)
  }

  /** `k` is the last event about the end, or -1 if there is none. */
  predicate LastAbout(events: seq<Event>, end: Endpoint, k: int) {
    && -1 <= k < |events| && (k >= 0 ==> About(events[k], end))
    && forall j :: k < j < |events| ==> !About(events[j], end)
  }

  lemma {:induction false} FindLast(events: seq<Event>, end: Endpoint) returns (k: int)
    ensures LastAbout(events, end, k)
  {
    if events == [] {
      k := -1;
    } else if About(events[|events| - 1], end) {
      k := |events| - 1;
    } else {
      k := FindLast(events[..|events| - 1], end);
    }
  }

  /** The report is later than it may be. */
  predicate Old(e: Event, now: Time, interval: Time) { now - e.observedAt > interval }

  /** It names the neighbour that the configuration leads to expect: an end that is up the IMP
      across, a looped end its own, an end that is down nobody or the IMP across. */
  predicate Believable(e: Event, here: Endpoint, across: Endpoint) {
    match e.state
    case Up => e.neighbor == Some(across.imp)
    case Looped => e.neighbor == Some(here.imp)
    case Down => e.neighbor.None? || e.neighbor.value == across.imp
    case Unknown => true
    case _ => e.neighbor == Some(across.imp)
  }

  /** The end whose IMP has the smaller number, and the other. */
  function Lower(line: Line): Endpoint { if line.first.imp <= line.second.imp then line.first else line.second }

  function Upper(line: Line): Endpoint { if line.first.imp <= line.second.imp then line.second else line.first }

  // ----- what each end says -----

  datatype Word = Silent | Outdated | Doubtful | Saying(state: State)

  /** What the end says now, by the last event `k` about it. */
  function Says(events: seq<Event>, k: int, here: Endpoint, across: Endpoint, now: Time, interval: Time): Word
    requires -1 <= k < |events|
  {
    if k == -1 then Silent
    else if Old(events[k], now, interval) then Outdated
    else if !Believable(events[k], here, across) then Doubtful
    else Saying(events[k].state)
  }

  /** The condition of a line from what its lower and its upper end say. */
  ghost predicate LineSays(c: Condition, lower: Word, upper: Word) {
    && (c.Stale? <==> lower.Outdated? || upper.Outdated?)
    && (c.LineUp? <==> lower == Saying(Up) && upper == Saying(Up))
    && (c.LineDown? <==> lower == Saying(Down) && upper == Saying(Down))
    && (c.LineLooped? <==> lower == Saying(Looped) && upper == Saying(Looped))
    && (c.MinusDown? <==> lower == Saying(Down) && upper == Saying(Up))
    && (c.PlusDown? <==> lower == Saying(Up) && upper == Saying(Down))
    && (c.MinusLooped? <==> lower == Saying(Looped) && upper == Saying(Up))
    && (c.PlusLooped? <==> lower == Saying(Up) && upper == Saying(Looped))
    && (c.Contradictory? <==>
          || (lower.Doubtful? && (upper.Doubtful? || upper.Saying?)) || (upper.Doubtful? && lower.Saying?)
          || (lower == Saying(Down) && upper == Saying(Looped)) || (lower == Saying(Looped) && upper == Saying(Down)))
    && (c.LineUnknown? <==>
          || (lower.Silent? && !upper.Outdated?) || (upper.Silent? && !lower.Outdated?)
          || (lower == Saying(Unknown) && upper.Saying?) || (lower.Saying? && upper == Saying(Unknown)))
  }

  ghost predicate EndSays(c: Condition, word: Word) {
    match word
    case Silent => c.LineUnknown?
    case Outdated => c.Stale?
    case Doubtful => c.Contradictory?
    case Saying(state) =>
      && (c.LineUp? <==> state.Up?) && (c.LineDown? <==> state.Down?) && (c.LineLooped? <==> state.Looped?)
      && (c.LineUnknown? <==> state.Unknown?) && !c.Stale? && !c.Contradictory?
  }

  // ----- what is held about an end -----

  lemma {:induction false} LineAtIs(lines: seq<Line>, i: nat, end: Endpoint)
    requires Apart(lines) && i < |lines| && end in Ends(lines[i])
    ensures LineAt(lines, end) == Some(lines[i])
  {
    var last := |lines| - 1;
    if i < last {
      assert end !in Ends(lines[last]);
      assert lines[..last][i] == lines[i];
      LineAtIs(lines[..last], i, end);
    }
  }

  /** What is held was judged against the configured line. */
  lemma {:induction false} NotedJudged(lines: seq<Line>, events: seq<Event>)
    requires Noted(lines, events).Ok?
    ensures forall end :: end in Noted(lines, events).value.ends ==>
      Judged(lines, end, Noted(lines, events).value.ends[end])
  {
    hide MatchesExpectedPeer, ImpNumbers, LineAt, EventFault;
    if events != [] {
      NotedJudged(lines, events[..|events| - 1]);
    }
  }

  predicate Judged(lines: seq<Line>, end: Endpoint, o: Observation) {
    LineAt(lines, end).Some? && o.matches == MatchesExpectedPeer(o.event, LineAt(lines, end).value, end)
  }

  lemma MatchesMeans(e: Event, line: Line, end: Endpoint)
    requires end in Ends(line) && line.first.imp != line.second.imp
    ensures MatchesExpectedPeer(e, line, end) <==>
      Believable(e, end, if end == line.first then line.second else line.first)
  {
  }

  /** The end of a configured line in the state held. */
  ghost predicate Held(seen: Seen, events: seq<Event>, k: int, here: Endpoint, across: Endpoint) {
    && (here in seen.ends <==> k >= 0)
    && (k >= 0 ==>
          && k < |events| && seen.ends[here].event == events[k] && Direct(events[k].state)
          && (seen.ends[here].matches <==> Believable(events[k], here, across)))
  }

  lemma HeldMeans(lines: seq<Line>, events: seq<Event>, i: nat, here: Endpoint, across: Endpoint, k: int)
    requires Nominal(lines) && Noted(lines, events).Ok? && i < |lines|
    requires (here, across) in {(lines[i].first, lines[i].second), (lines[i].second, lines[i].first)}
    requires LastAbout(events, here, k)
    ensures Held(Noted(lines, events).value, events, k, here, across)
  {
    LineAtIs(lines, i, here);
    forall j | 0 <= j < |events| ensures AboutEnd(lines, events[j], here) <==> About(events[j], here) {
    }
    NewestEnd(lines, events, here, k);
    NotedDirect(lines, events);
    NotedJudged(lines, events);
    hide Noted, LineAt, MatchesExpectedPeer, Believable;
    if k >= 0 {
      MatchesMeans(events[k], lines[i], here);
    }
  }

  // ----- lines and ends -----

  lemma EndMeans(line: Line, seen: Seen, events: seq<Event>, k: int, here: Endpoint, across: Endpoint, now: Time,
                 interval: Time)
    requires -1 <= k < |events| && Held(seen, events, k, here, across)
    ensures var view := EndpointView(line, here, seen, now, interval);
      && view.line == line.id && view.endpoint == here
      && EndSays(view.condition, Says(events, k, here, across, now, interval))
      && view.support == (if k >= 0 then [events[k].sequence] else [])
      && view.lastKnown == (if k >= 0 then Some(events[k].state) else None)
      && view.observedAt == (if k >= 0 then Some(events[k].observedAt) else None)
      && view.matches == (if k >= 0 then Some(Believable(events[k], here, across)) else None)
  {
    hide Believable;
  }

  lemma LineMeans(line: Line, seen: Seen, events: seq<Event>, k: int, l: int, now: Time, interval: Time)
    requires line.first.imp != line.second.imp && -1 <= k < |events| && -1 <= l < |events|
    requires Held(seen, events, k, Lower(line), Upper(line)) && Held(seen, events, l, Upper(line), Lower(line))
    ensures var view := ReconcileLine(line, seen, now, interval);
      && view.id == line.id
      && LineSays(view.condition, Says(events, k, Lower(line), Upper(line), now, interval),
                  Says(events, l, Upper(line), Lower(line), now, interval))
      && view.support == Sorted((if k >= 0 then [events[k].sequence] else [])
                                + (if l >= 0 then [events[l].sequence] else []))
  {
    EndMeans(line, seen, events, k, Lower(line), Upper(line), now, interval);
    EndMeans(line, seen, events, l, Upper(line), Lower(line), now, interval);
    hide Believable, Sorted;
  }

  // ----- IMPs -----

  /** `r` is the last report of the IMP, or -1 if there is none. */
  predicate LastReport(events: seq<Event>, imp: int, r: int) {
    && -1 <= r < |events| && (r >= 0 ==> events[r].kind.ImpReport? && events[r].imp == imp)
    && forall j :: r < j < |events| ==> !(events[j].kind.ImpReport? && events[j].imp == imp)
  }

  predicate Late(events: seq<Event>, r: int, started: Time, now: Time, interval: Time)
    requires -1 <= r < |events|
  {
    if r >= 0 then Old(events[r], now, interval) else now - started > interval
  }

  predicate Touches(line: Line, imp: int) { line.first.imp == imp || line.second.imp == imp }

  function Here(line: Line, imp: int): Endpoint { if line.first.imp == imp then line.first else line.second }

  function Across(line: Line, imp: int): Endpoint { if line.first.imp == imp then line.second else line.first }

  /** The last event about the far end of the line says, freshly and believably, that it is down. */
  predicate FarEndDown(line: Line, imp: int, events: seq<Event>, now: Time, interval: Time) {
    exists k :: 0 <= k < |events| && LastAbout(events, Across(line, imp), k)
      && Says(events, k, Across(line, imp), Here(line, imp), now, interval) == Saying(Down)
  }

  /** Two lines or more touch the IMP, and the far ends of all of them say so. */
  predicate CutOff(lines: seq<Line>, imp: int, events: seq<Event>, now: Time, interval: Time) {
    && (exists i, j :: 0 <= i < j < |lines| && Touches(lines[i], imp) && Touches(lines[j], imp))
    && forall i :: 0 <= i < |lines| && Touches(lines[i], imp) ==> FarEndDown(lines[i], imp, events, now, interval)
  }

  ghost predicate ImpSays(view: ImpView, lines: seq<Line>, events: seq<Event>, r: int, started: Time, now: Time,
                          interval: Time)
    requires -1 <= r < |events|
  {
    ReachSays(view, lines, events, r, started, now, interval) && SupportSays(view, lines, events, r)
  }

  predicate ReachSays(view: ImpView, lines: seq<Line>, events: seq<Event>, r: int, started: Time, now: Time,
                      interval: Time)
    requires -1 <= r < |events|
  {
    var late := Late(events, r, started, now, interval);
    && (view.reach.ImpUp? <==> !late && r >= 0) && (view.reach.ImpUnknown? <==> !late && r == -1)
    && (view.reach.ImpPartitioned? <==> late && CutOff(lines, view.imp, events, now, interval))
    && (view.reach.ImpStale? <==> late && !CutOff(lines, view.imp, events, now, interval))
  }

  ghost predicate SupportSays(view: ImpView, lines: seq<Line>, events: seq<Event>, r: int)
    requires -1 <= r < |events|
  {
    forall x :: x in view.support <==>
         || (r >= 0 && x == events[r].sequence)
         || (view.reach.ImpPartitioned? && exists i :: 0 <= i < |lines| && FarEvent(lines[i], view.imp, events, x))
  }

  /** `x` is the sequence of the last event about the far end of a line of the IMP. */
  predicate FarEvent(line: Line, imp: int, events: seq<Event>, x: int) {
    Touches(line, imp)
    && exists k :: 0 <= k < |events| && LastAbout(events, Across(line, imp), k) && events[k].sequence == x
  }

  lemma OneLast(events: seq<Event>, end: Endpoint, k: int, l: int)
    requires LastAbout(events, end, k) && LastAbout(events, end, l)
    ensures k == l
  {
  }

  /** What the state held says of one far end. */
  lemma FarEndMeans(lines: seq<Line>, events: seq<Event>, imp: int, i: nat, now: Time, interval: Time) returns (k: int)
    requires Nominal(lines) && Noted(lines, events).Ok? && i < |lines| && Touches(lines[i], imp)
    ensures var (seen, peer) := (Noted(lines, events).value, Peer(lines[i], Local(lines[i], imp)));
      && peer == Across(lines[i], imp) && LastAbout(events, peer, k)
      && (FreshlyDown(peer, seen, now, interval) <==> FarEndDown(lines[i], imp, events, now, interval))
      && (peer in seen.ends <==> k >= 0) && (k >= 0 ==> seen.ends[peer].event == events[k])
  {
    var (here, across) := (Here(lines[i], imp), Across(lines[i], imp));
    k := FindLast(events, across);
    HeldMeans(lines, events, i, across, here, k);
    hide Noted, Nominal, Believable, LastAbout;
    if FarEndDown(lines[i], imp, events, now, interval) {
      var l :| 0 <= l < |events| && LastAbout(events, across, l)
        && Says(events, l, across, here, now, interval) == Saying(Down);
      OneLast(events, across, k, l);
    }
  }

  /** The incident lines, by places. */
  lemma {:induction false} IncidentPlaces(lines: seq<Line>, imp: int) returns (places: seq<nat>)
    ensures |places| == |IncidentLines(lines, imp)|
    ensures forall n :: 0 <= n < |places| ==> places[n] < |lines| && IncidentLines(lines, imp)[n] == lines[places[n]]
    ensures forall n, m :: 0 <= n < m < |places| ==> places[n] < places[m]
    ensures forall i :: 0 <= i < |lines| ==> (i in places <==> Touches(lines[i], imp))
  {
    if lines == [] {
      places := [];
    } else {
      var n := |lines| - 1;
      places := IncidentPlaces(lines[..n], imp);
      if Incident(lines[n], imp) {
        places := places + [n];
      }
      forall i | 0 <= i < |lines| ensures i in places <==> Touches(lines[i], imp) {
        if i < n {
          assert lines[..n][i] == lines[i];
        }
      }
    }
  }

  /** The sequences collected are those of the peers that freshly report down. */
  lemma {:induction false} PeersDownMean(lines: seq<Line>, imp: int, seen: Seen, now: Time, interval: Time, x: int)
    ensures x in PeersDown(lines, imp, seen, now, interval) <==>
      exists n :: 0 <= n < |lines| && Contributes(lines[n], imp, seen, now, interval, x)
  {
    hide FreshlyDown;
    if lines != [] {
      var (rest, last) := (lines[..|lines| - 1], lines[|lines| - 1]);
      PeersDownMean(rest, imp, seen, now, interval, x);
      assert forall n :: 0 <= n < |rest| ==> rest[n] == lines[n];
      if Contributes(last, imp, seen, now, interval, x) {
        assert Contributes(lines[|rest|], imp, seen, now, interval, x);
      }
    }
  }

  predicate Contributes(line: Line, imp: int, seen: Seen, now: Time, interval: Time, x: int) {
    var peer := Peer(line, Local(line, imp));
    FreshlyDown(peer, seen, now, interval) && seen.ends[peer].event.sequence == x
  }

  lemma CutOffMeans(lines: seq<Line>, events: seq<Event>, imp: int, now: Time, interval: Time)
    requires Nominal(lines) && Noted(lines, events).Ok?
    ensures var (seen, incident) := (Noted(lines, events).value, IncidentLines(lines, imp));
      CutOff(lines, imp, events, now, interval) <==>
        && |incident| >= 2
        && forall n :: 0 <= n < |incident| ==>
             FreshlyDown(Peer(incident[n], Local(incident[n], imp)), seen, now, interval)
  {
    var incident := IncidentLines(lines, imp);
    var seen := Noted(lines, events).value;
    var places := IncidentPlaces(lines, imp);
    forall i | 0 <= i < |lines| && Touches(lines[i], imp)
      ensures FreshlyDown(Peer(lines[i], Local(lines[i], imp)), seen, now, interval)
         <==> FarEndDown(lines[i], imp, events, now, interval)
    {
      var k := FarEndMeans(lines, events, imp, i, now, interval);
    }
    hide Noted, Nominal, FreshlyDown, FarEndDown, IncidentLines, Touches, Peer, Local;
    TwoPlaces(lines, imp, places);
    if forall n :: 0 <= n < |incident| ==>
         FreshlyDown(Peer(incident[n], Local(incident[n], imp)), seen, now, interval)
    {
      forall i | 0 <= i < |lines| && Touches(lines[i], imp) ensures FarEndDown(lines[i], imp, events, now, interval) {
        assert i in places;
        var n :| 0 <= n < |places| && places[n] == i;
        assert incident[n] == lines[i];
      }
    }
    if CutOff(lines, imp, events, now, interval) {
      forall n | 0 <= n < |incident|
        ensures FreshlyDown(Peer(incident[n], Local(incident[n], imp)), seen, now, interval)
      {
        assert places[n] in places && incident[n] == lines[places[n]];
      }
    }
  }

  lemma TwoPlaces(lines: seq<Line>, imp: int, places: seq<nat>)
    requires forall n, m :: 0 <= n < m < |places| ==> places[n] < places[m]
    requires forall n :: 0 <= n < |places| ==> places[n] < |lines|
    requires forall i :: 0 <= i < |lines| ==> (i in places <==> Touches(lines[i], imp))
    ensures |places| >= 2 <==> exists i, j :: 0 <= i < j < |lines| && Touches(lines[i], imp) && Touches(lines[j], imp)
  {
    hide Touches;
    if |places| >= 2 {
      assert places[0] in places && places[1] in places;
    }
    if i, j :| 0 <= i < j < |lines| && Touches(lines[i], imp) && Touches(lines[j], imp) {
      assert i in places && j in places;
      var n :| 0 <= n < |places| && places[n] == i;
      var m :| 0 <= m < |places| && places[m] == j;
    }
  }

  lemma {:induction false} FindReport(events: seq<Event>, imp: int) returns (r: int)
    ensures LastReport(events, imp, r)
  {
    if events == [] {
      r := -1;
    } else if events[|events| - 1].kind.ImpReport? && events[|events| - 1].imp == imp {
      r := |events| - 1;
    } else {
      r := FindReport(events[..|events| - 1], imp);
    }
  }

  lemma ReportHeld(lines: seq<Line>, events: seq<Event>, imp: int, r: int)
    requires Noted(lines, events).Ok? && LastReport(events, imp, r) && imp in ImpNumbers(lines)
    ensures var imps := Noted(lines, events).value.imps;
      (imp in imps <==> r >= 0) && (r >= 0 ==> imps[imp] == events[r])
  {
    forall j | 0 <= j < |events|
      ensures AboutImp(lines, events[j], imp) <==> events[j].kind.ImpReport? && events[j].imp == imp
    {
    }
    NewestReport(lines, events, imp, r);
  }

  /** The sequences of the far ends that say they are down, when all do. */
  lemma FarSupport(lines: seq<Line>, events: seq<Event>, imp: int, now: Time, interval: Time, x: int)
    requires Nominal(lines) && Noted(lines, events).Ok? && CutOff(lines, imp, events, now, interval)
    ensures x in PeersDown(IncidentLines(lines, imp), imp, Noted(lines, events).value, now, interval) <==>
      exists i :: 0 <= i < |lines| && FarEvent(lines[i], imp, events, x)
  {
    var (seen, incident) := (Noted(lines, events).value, IncidentLines(lines, imp));
    var places := IncidentPlaces(lines, imp);
    PeersDownMean(incident, imp, seen, now, interval, x);
    forall i | 0 <= i < |lines| && Touches(lines[i], imp)
      ensures Contributes(lines[i], imp, seen, now, interval, x) <==> FarEvent(lines[i], imp, events, x)
    {
      var k := FarEndMeans(lines, events, imp, i, now, interval);
      FarEventIs(lines[i], imp, events, k, x);
    }
    hide Noted, Nominal, Contributes, FarEndDown, IncidentLines, PeersDown;
    if n :| 0 <= n < |incident| && Contributes(incident[n], imp, seen, now, interval, x) {
      assert places[n] in places && FarEvent(lines[places[n]], imp, events, x);
    }
    if i :| 0 <= i < |lines| && FarEvent(lines[i], imp, events, x) {
      assert i in places;
      var n :| 0 <= n < |places| && places[n] == i;
      assert Contributes(incident[n], imp, seen, now, interval, x);
    }
  }

  lemma FarEventIs(line: Line, imp: int, events: seq<Event>, k: int, x: int)
    requires LastAbout(events, Across(line, imp), k) && Touches(line, imp)
    ensures FarEvent(line, imp, events, x) <==> k >= 0 && events[k].sequence == x
  {
    hide Across;
    if FarEvent(line, imp, events, x) {
      var l :| 0 <= l < |events| && LastAbout(events, Across(line, imp), l) && events[l].sequence == x;
      OneLast(events, Across(line, imp), k, l);
    }
  }

  lemma ImpMeans(lines: seq<Line>, events: seq<Event>, imp: int, r: int, started: Time, now: Time, interval: Time)
    requires Nominal(lines) && Noted(lines, events).Ok? && imp in ImpNumbers(lines) && LastReport(events, imp, r)
    ensures var view := ReconcileImp(imp, lines, Noted(lines, events).value, started, now, interval);
      view.imp == imp && ImpSays(view, lines, events, r, started, now, interval)
  {
    ImpReach(lines, events, imp, r, started, now, interval);
    ImpSupportMeans(lines, events, imp, r, started, now, interval);
    hide Noted, Nominal, ReconcileImp, ReachSays, SupportSays, LastReport, ImpNumbers;
  }

  lemma ImpReach(lines: seq<Line>, events: seq<Event>, imp: int, r: int, started: Time, now: Time, interval: Time)
    requires Nominal(lines) && Noted(lines, events).Ok? && imp in ImpNumbers(lines) && LastReport(events, imp, r)
    ensures var view := ReconcileImp(imp, lines, Noted(lines, events).value, started, now, interval);
      view.imp == imp && ReachSays(view, lines, events, r, started, now, interval)
  {
    ReportHeld(lines, events, imp, r);
    CutOffMeans(lines, events, imp, now, interval);
    AllPeersDown(IncidentLines(lines, imp), imp, Noted(lines, events).value, now, interval);
    hide Noted, Nominal, IncidentLines, PeersDown, CutOff, Sorted, ImpNumbers, FreshlyDown, LastReport, Peer, Local;
  }

  lemma ImpSupportMeans(lines: seq<Line>, events: seq<Event>, imp: int, r: int, started: Time, now: Time,
                        interval: Time)
    requires Nominal(lines) && Noted(lines, events).Ok? && imp in ImpNumbers(lines) && LastReport(events, imp, r)
    ensures SupportSays(ReconcileImp(imp, lines, Noted(lines, events).value, started, now, interval), lines, events, r)
  {
    var seen := Noted(lines, events).value;
    ReportHeld(lines, events, imp, r);
    ImpReach(lines, events, imp, r, started, now, interval);
    var view := ReconcileImp(imp, lines, seen, started, now, interval);
    forall x ensures x in view.support <==>
      || (r >= 0 && x == events[r].sequence)
      || (view.reach.ImpPartitioned? && exists i :: 0 <= i < |lines| && FarEvent(lines[i], imp, events, x))
    {
      var down := PeersDown(IncidentLines(lines, imp), imp, seen, now, interval);
      SortedHas(OwnSupport(imp, seen), x);
      SortedHas(OwnSupport(imp, seen) + down, x);
      if view.reach.ImpPartitioned? {
        FarSupport(lines, events, imp, now, interval, x);
      }
      hide Noted, Nominal, IncidentLines, PeersDown, CutOff, FarEvent, Sorted, ImpNumbers, LastReport;
    }
  }

  lemma SortedHas(s: seq<int>, x: int)
    ensures x in Sorted(s) <==> x in s
  {
    SortedLaw(s);
    assert x in Sorted(s) <==> x in multiset(Sorted(s));
    assert x in s <==> x in multiset(s);
  }

  // ----- the reducer -----

  lemma {:induction false} EndViewsAt(lines: seq<Line>, seen: Seen, now: Time, interval: Time)
    ensures var ends := EndViews(lines, seen, now, interval);
      && |ends| == 2 * |lines|
      && forall i :: 0 <= i < |lines| ==> BothEnds(lines[i], ends, i, seen, now, interval)
  {
    hide EndpointView;
    if lines != [] {
      var n := |lines| - 1;
      EndViewsAt(lines[..n], seen, now, interval);
      var (rest, ends) := (EndViews(lines[..n], seen, now, interval), EndViews(lines, seen, now, interval));
      forall i | 0 <= i < |lines| ensures BothEnds(lines[i], ends, i, seen, now, interval) {
        if i < n {
          assert BothEnds(lines[..n][i], rest, i, seen, now, interval);
        }
      }
    }
  }

  predicate BothEnds(line: Line, ends: seq<EndView>, i: nat, seen: Seen, now: Time, interval: Time)
    requires 2 * i + 1 < |ends|
  {
    && ends[2 * i] == EndpointView(line, Minus(line), seen, now, interval)
    && ends[2 * i + 1] == EndpointView(line, Plus(line), seen, now, interval)
  }

  /** Every line's condition, and that of its two ends, by what the last events about them say. */
  lemma LinesMean(lines: seq<Line>, events: seq<Event>, started: Time, now: Time, interval: Time, i: nat)
    returns (k: int, l: int)
    requires Nominal(lines) && Reconciled(lines, events, started, now, interval).Ok? && i < |lines|
    ensures LastAbout(events, Lower(lines[i]), k) && LastAbout(events, Upper(lines[i]), l)
    ensures var (views, a, b) := (Reconciled(lines, events, started, now, interval).value, Lower(lines[i]),
                                  Upper(lines[i]));
      var (lower, upper) := (Says(events, k, a, b, now, interval), Says(events, l, b, a, now, interval));
      && |views.lines| == |lines| && |views.ends| == 2 * |lines|
      && views.lines[i].id == lines[i].id && LineSays(views.lines[i].condition, lower, upper)
      && views.lines[i].support == Sorted(SequenceOf(events, k) + SequenceOf(events, l))
      && views.ends[2 * i].endpoint == a && EndSays(views.ends[2 * i].condition, lower)
      && views.ends[2 * i + 1].endpoint == b && EndSays(views.ends[2 * i + 1].condition, upper)
      && views.ends[2 * i].support == SequenceOf(events, k) && views.ends[2 * i + 1].support == SequenceOf(events, l)
  {
    var (line, seen) := (lines[i], Noted(lines, events).value);
    var (a, b) := (Lower(line), Upper(line));
    k := FindLast(events, a);
    l := FindLast(events, b);
    HeldMeans(lines, events, i, a, b, k);
    HeldMeans(lines, events, i, b, a, l);
    LineMeans(line, seen, events, k, l, now, interval);
    EndMeans(line, seen, events, k, a, b, now, interval);
    EndMeans(line, seen, events, l, b, a, now, interval);
    EndViewsAt(lines, seen, now, interval);
    assert BothEnds(line, EndViews(lines, seen, now, interval), i, seen, now, interval);
    hide Noted, Held, LastAbout, LineSays, EndSays, Says, Sorted, ImpNumbers, OrderFault, EndpointView, ReconcileLine,
      ReconcileImp, EndViews;
  }

  function SequenceOf(events: seq<Event>, k: int): seq<int>
    requires -1 <= k < |events|
  {
    if k >= 0 then [events[k].sequence] else []
  }

  /** Every configured IMP's reach, by its last report and the last events about its far ends. */
  lemma ImpsMean(lines: seq<Line>, events: seq<Event>, started: Time, now: Time, interval: Time, i: nat)
    returns (r: int)
    requires Nominal(lines) && Reconciled(lines, events, started, now, interval).Ok?
    requires i < |Reconciled(lines, events, started, now, interval).value.imps|
    ensures var view := Reconciled(lines, events, started, now, interval).value.imps[i];
      LastReport(events, view.imp, r) && ImpSays(view, lines, events, r, started, now, interval)
  {
    var imp := ImpNumbers(lines)[i];
    r := FindReport(events, imp);
    ImpMeans(lines, events, imp, r, started, now, interval);
    hide Noted, ImpSays, LastReport, OrderFault, ReconcileImp, ReconcileLine, EndViews, ImpNumbers;
  }

  /** What an event about something configured must be. */
  predicate Sound(lines: seq<Line>, e: Event) {
    && (forall i :: 0 <= i < |lines| ==>
          (About(e, lines[i].first) || About(e, lines[i].second) ==>
             e.source.TroubleSource? && e.imp == e.subject.imp
               && (e.state.Up? || e.state.Down? || e.state.Looped? || e.state.Unknown?)))
    && (e.kind.ImpReport? && (exists i :: 0 <= i < |lines| && Touches(lines[i], e.imp)) ==>
          e.source.TroubleSource? && e.subject == ImpSubject(e.imp) && e.state.Received?)
  }

  lemma {:induction false} LineAtMeans(lines: seq<Line>, end: Endpoint)
    ensures LineAt(lines, end).Some? <==>
      exists i :: 0 <= i < |lines| && (lines[i].first == end || lines[i].second == end)
  {
    if lines != [] {
      var rest := lines[..|lines| - 1];
      LineAtMeans(rest, end);
      assert forall i :: 0 <= i < |rest| ==> rest[i] == lines[i];
    }
  }

  lemma SoundMeans(lines: seq<Line>, e: Event)
    ensures EventFault(lines, e).None? <==> Sound(lines, e)
  {
    NumbersAscend(lines);
    if EndOf(e).Some? {
      LineAtMeans(lines, EndOf(e).value);
    }
    assert forall i :: 0 <= i < |lines| ==> (Touches(lines[i], e.imp) <==> Incident(lines[i], e.imp));
    hide LineAt, ImpNumbers;
  }

  lemma {:induction false} NotedMeans(lines: seq<Line>, events: seq<Event>)
    ensures Noted(lines, events).Ok? <==> forall j :: 0 <= j < |events| ==> Sound(lines, events[j])
  {
    hide Sound, EventFault, Note;
    if events != [] {
      var rest := events[..|events| - 1];
      NotedMeans(lines, rest);
      SoundMeans(lines, events[|rest|]);
      assert forall j :: 0 <= j < |rest| ==> rest[j] == events[j];
    }
  }

  /** The reducer answers exactly when the time and the interval are sensible, the events are in
      order and not in the future, and those about anything configured are sound. */
  lemma AnswersMean(lines: seq<Line>, events: seq<Event>, started: Time, now: Time, interval: Time)
    ensures Reconciled(lines, events, started, now, interval).Ok? <==>
      && started <= now && interval > 0
      && (forall i :: 0 <= i < |events| ==> events[i].sequence >= 0 && events[i].observedAt <= now)
      && (forall i :: 0 < i < |events| ==>
            events[i - 1].sequence < events[i].sequence && events[i - 1].observedAt <= events[i].observedAt)
      && forall i :: 0 <= i < |events| ==> Sound(lines, events[i])
  {
    OrderedExactly(events, now);
    NotedMeans(lines, events);
    hide Sound, Noted, OrderFault, View;
  }
}
