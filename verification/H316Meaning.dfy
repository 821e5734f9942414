/**
 What a parsed H316 trace says, said about the places of its lines: every message line opens one
 chunk, whose words, numbers and completeness the lines up to its end give, and neighbouring
 received chunks of one firmware message come out as one transfer.
 */
module H316Meaning {
  import opened Wrappers
  import opened H316Trace

  // ----- one chunk, by places -----

  /** The line reports the chunk that `opening` announced as received. */
  predicate Reports(opening: Line, line: Line) {
    opening.Message? && opening.action.Received? && line.ReceiveDone? && line.device == opening.device
  }

  /** The chunk opened at `m` lasts up to `e`: the next message line, its own receive-done line,
      or the end of the trace. */
  predicate Lasts(trace: seq<Line>, m: nat, e: nat) {
    && m < e <= |trace| && trace[m].Message?
    && (forall j :: m < j < e ==> !trace[j].Message? && !Reports(trace[m], trace[j]))
    && (e < |trace| ==> trace[e].Message? || Reports(trace[m], trace[e]))
  }

  /** A word line of the chunk. */
  predicate Belongs(opening: Line, line: Line) {
    opening.Message? && line.Words? && line.tick == opening.tick && line.device == opening.device
  }

  /** The words shown for the chunk between its opening and `e`. */
  function WordsIn(trace: seq<Line>, m: nat, e: nat): seq<nat>
    requires m < e <= |trace|
    decreases e - m
  {
    if e == m + 1 then []
    else WordsIn(trace, m, e - 1) + if Belongs(trace[m], trace[e - 1]) then Octal(trace[e - 1].tokens) else []
  }

  /** The line shows that words are missing: it repeats words above, or has a token that is none. */
  predicate Spoils(opening: Line, line: Line) {
    (Belongs(opening, line) && None in line.tokens)
    || (opening.Message? && line.Repeat? && line.tick == opening.tick)
  }

  predicate Spoiled(trace: seq<Line>, m: nat, e: nat)
    requires m < e <= |trace|
  {
    exists j :: m < j < e && Spoils(trace[m], trace[j])
  }

  /** The firmware's number for the message, from the line that reports the chunk. */
  function NumberAt(trace: seq<Line>, m: nat, e: nat): Option<nat>
    requires m < e <= |trace|
  {
    if e < |trace| && Reports(trace[m], trace[e]) then Some(trace[e].number) else None
  }

  /** A transport receive at this tick on this device. */
  predicate Heard(line: Line, tick: nat, device: Device) {
    line.Udp? && line.action.Received? && line.tick == tick && line.device == device
  }

  predicate Opens(line: Line, tick: nat, device: Device) { line.Message? && line.tick == tick && line.device == device }

  /** Place `j` holds the last transport receive for the key that no message line has taken yet. */
  predicate Unclaimed(trace: seq<Line>, tick: nat, device: Device, j: nat) {
    && j < |trace| && Heard(trace[j], tick, device)
    && forall k :: j < k < |trace| ==> !Heard(trace[k], tick, device) && !Opens(trace[k], tick, device)
  }

  predicate Claim(trace: seq<Line>, tick: nat, device: Device, claim: Option<nat>) {
    match claim
    case Some(sequence) =>
      exists j :: 0 <= j < |trace| && Unclaimed(trace, tick, device, j) && trace[j].sequence == sequence
    case None => forall j :: 0 <= j < |trace| ==> !Unclaimed(trace, tick, device, j)
  }

  /** A transport send of the chunk. */
  predicate Shipped(opening: Line, line: Line) {
    opening.Message? && opening.action.Sent? && line.Udp? && line.action.Sent? && line.device == opening.device
  }

  /** The transport number: of a send, that of its last transport send; otherwise that of the
      transport receive the message line takes. */
  predicate Transported(trace: seq<Line>, m: nat, e: nat, transport: Option<nat>)
    requires m < e <= |trace| && trace[m].Message?
  {
    if exists j :: m < j < e && Shipped(trace[m], trace[j])
      then exists j :: m < j < e && LastShipped(trace, m, e, j) && transport == Some(trace[j].sequence)
    else Claim(trace[..m], trace[m].tick, trace[m].device, transport)
  }

  predicate LastShipped(trace: seq<Line>, m: nat, e: nat, j: nat)
    requires m < e <= |trace|
  {
    m < j < e && Shipped(trace[m], trace[j]) && forall k :: j < k < e ==> !Shipped(trace[m], trace[k])
  }

  /** The record is what these lines say of the chunk opened at `m`. */
  predicate Describes(trace: seq<Line>, m: nat, e: nat, r: Pending)
    requires m < e <= |trace|
  {
    && trace[m].Message? && r.tick == trace[m].tick && r.device == trace[m].device && r.action == trace[m].action
    && r.declared == trace[m].length && r.words == WordsIn(trace, m, e) && (r.compressed <==> Spoiled(trace, m, e))
    && r.number == NumberAt(trace, m, e) && Transported(trace, m, e, r.transport)
  }

  // ----- reading on -----

  lemma {:induction false} WordsInPrefix(trace: seq<Line>, line: Line, m: nat, e: nat)
    requires m < e <= |trace|
    ensures WordsIn(trace + [line], m, e) == WordsIn(trace, m, e)
    decreases e - m
  {
    if e > m + 1 {
      WordsInPrefix(trace, line, m, e - 1);
    }
  }

  /** A chunk that is over is not touched by a further line. */
  lemma OverStays(trace: seq<Line>, line: Line, m: nat, e: nat, r: Pending)
    requires Lasts(trace, m, e) && e < |trace| && Describes(trace, m, e, r)
    ensures Lasts(trace + [line], m, e) && Describes(trace + [line], m, e, r)
  {
    var more := trace + [line];
    WordsInPrefix(trace, line, m, e);
    assert more[..m] == trace[..m];
    assert forall j :: 0 <= j < |trace| ==> more[j] == trace[j];
    assert forall j :: m < j < e ==> (LastShipped(more, m, e, j) <==> LastShipped(trace, m, e, j));
    hide WordsIn, Claim;
  }

  /** The open chunk ends with a message line or with its own report ... */
  lemma EndsHere(trace: seq<Line>, line: Line, m: nat, r: Pending)
    requires Lasts(trace, m, |trace|) && Describes(trace, m, |trace|, r)
    requires line.Message? || Reports(trace[m], line)
    ensures var more := trace + [line];
      Lasts(more, m, |trace|) &&
      Describes(more, m, |trace|, if line.Message? then r else r.(number := Some(line.number)))
  {
    var more := trace + [line];
    WordsInPrefix(trace, line, m, |trace|);
    assert more[..m] == trace[..m];
    assert forall j :: 0 <= j < |trace| ==> more[j] == trace[j];
    assert forall j :: m < j < |trace| ==> (LastShipped(more, m, |trace|, j) <==> LastShipped(trace, m, |trace|, j));
    hide WordsIn, Claim;
  }

  /** ... and otherwise takes in what the line says of it. */
  lemma GoesOn(trace: seq<Line>, line: Line, m: nat, r: Pending)
    requires Lasts(trace, m, |trace|) && Describes(trace, m, |trace|, r) && !line.Message? && !Reports(trace[m], line)
    ensures var after := Step(Reading([], Some(r), map[]), line).pending;
      && after.Some? && Lasts(trace + [line], m, |trace| + 1) && Describes(trace + [line], m, |trace| + 1, after.value)
  {
    var (more, n) := (trace + [line], |trace|);
    var after := Step(Reading([], Some(r), map[]), line).pending.value;
    WordsInPrefix(trace, line, m, n);
    assert more[..m] == trace[..m];
    assert forall j :: 0 <= j < n ==> more[j] == trace[j];
    SpoiledOn(trace, line, m);
    TransportedOn(trace, line, m, r.transport, after.transport);
    hide Transported, Spoiled, Octal;
    assert r.words + [] == r.words;
  }

  lemma SpoiledOn(trace: seq<Line>, line: Line, m: nat)
    requires m < |trace|
    ensures Spoiled(trace + [line], m, |trace| + 1) <==> Spoiled(trace, m, |trace|) || Spoils(trace[m], line)
  {
    var more := trace + [line];
    hide Spoils;
    assert more[m] == trace[m] && more[|trace|] == line;
    if Spoiled(trace, m, |trace|) {
      var j :| m < j < |trace| && Spoils(trace[m], trace[j]);
      assert Spoils(more[m], more[j]);
    }
    if Spoiled(more, m, |trace| + 1) {
      var j :| m < j < |trace| + 1 && Spoils(more[m], more[j]);
      if j < |trace| { assert Spoils(trace[m], trace[j]); }
    }
  }

  lemma TransportedOn(trace: seq<Line>, line: Line, m: nat, before: Option<nat>, after: Option<nat>)
    requires m < |trace| && trace[m].Message? && Transported(trace, m, |trace|, before)
    requires after == if Shipped(trace[m], line) then Some(line.sequence) else before
    ensures Transported(trace + [line], m, |trace| + 1, after)
  {
    var (more, n) := (trace + [line], |trace|);
    hide Claim;
    assert more[..m] == trace[..m] && more[m] == trace[m] && more[n] == line;
    assert forall j :: 0 <= j < n ==> more[j] == trace[j];
    if Shipped(trace[m], line) {
      assert LastShipped(more, m, n + 1, n);
    } else if exists j :: m < j < n && Shipped(trace[m], trace[j]) {
      var j :| m < j < n && LastShipped(trace, m, n, j) && before == Some(trace[j].sequence);
      assert LastShipped(more, m, n + 1, j) && Shipped(more[m], more[j]);
    }
  }

  lemma OpensHere(trace: seq<Line>, line: Line, claim: Option<nat>)
    requires line.Message? && Claim(trace, line.tick, line.device, claim)
    ensures var more := trace + [line];
      Described(more, |trace|, |trace| + 1,
                Pending(line.tick, line.device, line.action, line.length, [], claim, None, false))
  {
    var more := trace + [line];
    assert more[..|trace|] == trace && more[|trace|] == line;
    hide Claim;
  }

  /** The transport receives that are held are those not yet taken. */
  ghost predicate Claims(trace: seq<Line>, held: Transports) {
    forall tick, device :: Claim(trace, tick, device, HeldFor(held, tick, device))
  }

  function HeldFor(held: Transports, tick: nat, device: Device): Option<nat> {
    if (tick, device) in held then Some(held[(tick, device)]) else None
  }

  lemma ClaimOn(trace: seq<Line>, line: Line, tick: nat, device: Device, before: Option<nat>)
    requires Claim(trace, tick, device, before)
    ensures Claim(trace + [line], tick, device,
                  if Heard(line, tick, device) then Some(line.sequence)
                  else if Opens(line, tick, device) then None else before)
  {
    var (more, n) := (trace + [line], |trace|);
    assert more[n] == line && forall j :: 0 <= j < n ==> more[j] == trace[j];
    if Heard(line, tick, device) {
      assert Unclaimed(more, tick, device, n);
    } else {
      forall j | 0 <= j <= n
        ensures Unclaimed(more, tick, device, j) <==>
          j < n && Unclaimed(trace, tick, device, j) && !Opens(line, tick, device)
      {
        if j < n && Unclaimed(more, tick, device, j) {
          forall k | j < k < n ensures !Heard(trace[k], tick, device) && !Opens(trace[k], tick, device) {
            assert !Heard(more[k], tick, device) && !Opens(more[k], tick, device);
          }
        }
      }
      hide Unclaimed;
    }
  }

  lemma ClaimsOn(trace: seq<Line>, line: Line, s: Reading)
    requires Claims(trace, s.lastReceived)
    ensures Claims(trace + [line], Step(s, line).lastReceived)
  {
    forall tick, device
      ensures Claim(trace + [line], tick, device, HeldFor(Step(s, line).lastReceived, tick, device))
    {
      ClaimOn(trace, line, tick, device, HeldFor(s.lastReceived, tick, device));
      hide Claim;
    }
  }

  /** The reading accounts for the trace: one record for every message line, in order, each as its
      own lines say, those closed over before the end and the one in hand, opened at `last`, not. */
  ghost predicate Accounts(trace: seq<Line>, s: Reading, places: seq<nat>, ends: seq<nat>, last: Option<nat>) {
    && AllDescribed(trace, s.records, places, ends) && (s.pending.Some? <==> last.Some?)
    && (last.Some? ==> Described(trace, last.value, |trace|, s.pending.value))
    && OpenedAt(trace, With(places, last)) && Claims(trace, s.lastReceived)
  }

  function With(places: seq<nat>, last: Option<nat>): seq<nat> {
    places + match last case None => [] case Some(m) => [m]
  }

  predicate AllDescribed(trace: seq<Line>, records: seq<Pending>, places: seq<nat>, ends: seq<nat>) {
    && |places| == |ends| == |records|
    && forall n :: 0 <= n < |records| ==> Described(trace, places[n], ends[n], records[n]) && ends[n] < |trace|
  }

  predicate Described(trace: seq<Line>, m: nat, e: nat, r: Pending) { Lasts(trace, m, e) && Describes(trace, m, e, r) }

  /** The places of the message lines, in order. */
  predicate OpenedAt(trace: seq<Line>, places: seq<nat>) {
    && (forall n, k :: 0 <= n < k < |places| ==> places[n] < places[k])
    && (forall n :: 0 <= n < |places| ==> places[n] < |trace|)
    && forall i :: 0 <= i < |trace| ==> (i in places <==> trace[i].Message?)
  }

  lemma OpenedOn(trace: seq<Line>, line: Line, places: seq<nat>)
    requires OpenedAt(trace, places)
    ensures OpenedAt(trace + [line], if line.Message? then places + [|trace|] else places)
  {
    var more := trace + [line];
    forall i | 0 <= i < |more|
      ensures i in (if line.Message? then places + [|trace|] else places) <==> more[i].Message?
    {
      if i < |trace| { assert more[i] == trace[i]; }
    }
  }

  lemma OverStay(trace: seq<Line>, line: Line, records: seq<Pending>, places: seq<nat>, ends: seq<nat>)
    requires AllDescribed(trace, records, places, ends)
    ensures AllDescribed(trace + [line], records, places, ends)
  {
    hide Describes, Lasts;
    forall n | 0 <= n < |records| ensures Described(trace + [line], places[n], ends[n], records[n]) {
      OverStays(trace, line, places[n], ends[n], records[n]);
    }
  }

  lemma OneMoreOver(trace: seq<Line>, records: seq<Pending>, places: seq<nat>, ends: seq<nat>, m: nat, e: nat,
                    r: Pending)
    requires AllDescribed(trace, records, places, ends) && Described(trace, m, e, r) && e < |trace|
    ensures AllDescribed(trace, records + [r], places + [m], ends + [e])
  {
    hide Described;
  }

  lemma OpeningOf(trace: seq<Line>, m: nat, e: nat, r: Pending)
    requires Described(trace, m, e, r)
    ensures m < |trace| && trace[m].Message? && r.action == trace[m].action && r.device == trace[m].device
    ensures Lasts(trace, m, e) && Describes(trace, m, e, r)
  {
  }

  /** The chunk in hand is closed, if there is one. */
  lemma CloseOn(trace: seq<Line>, line: Line, s: Reading, places: seq<nat>, ends: seq<nat>, last: Option<nat>)
    returns (ends': seq<nat>)
    requires Accounts(trace, s, places, ends, last)
    requires line.Message? || (last.Some? && last.value < |trace| && Reports(trace[last.value], line))
    ensures AllDescribed(trace + [line],
                         Closed(s.records, if line.Message? || s.pending.None? then s.pending
                                           else Some(s.pending.value.(number := Some(line.number)))),
                         With(places, last), ends')
  {
    OverStay(trace, line, s.records, places, ends);
    hide AllDescribed, Describes, Lasts, Claims, OpenedAt, Reports;
    ends' := ends;
    if last.Some? {
      var (m, r) := (last.value, s.pending.value);
      OpeningOf(trace, m, |trace|, r);
      EndsHere(trace, line, m, r);
      OneMoreOver(trace + [line], s.records, places, ends, m, |trace|,
                  if line.Message? then r else r.(number := Some(line.number)));
      ends' := ends + [|trace|];
    } else {
      assert places + [] == places && s.records + [] == s.records;
    }
  }

  lemma MessageOn(trace: seq<Line>, line: Line, s: Reading, places: seq<nat>, ends: seq<nat>, last: Option<nat>)
    returns (ends': seq<nat>)
    requires Accounts(trace, s, places, ends, last) && line.Message?
    ensures Accounts(trace + [line], Step(s, line), With(places, last), ends', Some(|trace|))
  {
    ends' := CloseOn(trace, line, s, places, ends, last);
    ClaimsOn(trace, line, s);
    ClaimIn(trace, s.lastReceived, line.tick, line.device);
    hide AllDescribed, Described, Claims, OpenedAt, Claim;
    OpensHere(trace, line, HeldFor(s.lastReceived, line.tick, line.device));
    OpenedOn(trace, line, With(places, last));
  }

  lemma ClaimIn(trace: seq<Line>, held: Transports, tick: nat, device: Device)
    requires Claims(trace, held)
    ensures Claim(trace, tick, device, HeldFor(held, tick, device))
  {
  }

  lemma ReportOn(trace: seq<Line>, line: Line, s: Reading, places: seq<nat>, ends: seq<nat>, m: nat)
    returns (ends': seq<nat>)
    requires Accounts(trace, s, places, ends, Some(m)) && m < |trace| && Reports(trace[m], line)
    ensures Accounts(trace + [line], Step(s, line), places + [m], ends', None)
  {
    hide AllDescribed, Described, Claims, OpenedAt;
    ends' := CloseOn(trace, line, s, places, ends, Some(m));
    OpeningOf(trace, m, |trace|, s.pending.value);
    hide Describes, Lasts;
    OpenedOn(trace, line, With(places, Some(m)));
    ClaimsOn(trace, line, s);
    assert With(places + [m], None) == places + [m];
  }

  lemma OtherOn(trace: seq<Line>, line: Line, s: Reading, places: seq<nat>, ends: seq<nat>, last: Option<nat>)
    requires Accounts(trace, s, places, ends, last) && !line.Message?
    requires last.Some? ==> last.value < |trace| && !Reports(trace[last.value], line)
    ensures Accounts(trace + [line], Step(s, line), places, ends, last)
  {
    OverStay(trace, line, s.records, places, ends);
    OpenedOn(trace, line, With(places, last));
    ClaimsOn(trace, line, s);
    hide AllDescribed, Describes, Lasts, Claims, OpenedAt;
    if last.Some? {
      OpeningOf(trace, last.value, |trace|, s.pending.value);
      GoesOn(trace, line, last.value, s.pending.value);
    }
  }

  /** Every trace is accounted for. */
  lemma {:induction false} RunMeans(trace: seq<Line>) returns (places: seq<nat>, ends: seq<nat>, last: Option<nat>)
    ensures Accounts(trace, Run(trace), places, ends, last)
  {
    if trace == [] {
      places, ends, last := [], [], None;
      NothingToAccount();
    } else {
      var (rest, line) := (trace[..|trace| - 1], trace[|trace| - 1]);
      places, ends, last := RunMeans(rest);
      assert rest + [line] == trace;
      var s := Run(rest);
      if last.Some? {
        OpeningOf(rest, last.value, |rest|, s.pending.value);
      }
      hide Accounts, Step, Reports;
      if line.Message? {
        ends := MessageOn(rest, line, s, places, ends, last);
        places, last := With(places, last), Some(|rest|);
      } else if last.Some? && Reports(rest[last.value], line) {
        ends := ReportOn(rest, line, s, places, ends, last.value);
        places, last := places + [last.value], None;
      } else {
        OtherOn(rest, line, s, places, ends, last);
      }
    }
  }

  lemma NothingToAccount()
    ensures Accounts([], Reading([], None, map[]), [], [], None)
  {
  }

  // ----- chunks of one message -----

  /** Received on one device under one number of the firmware's. */
  predicate Together(a: Transfer, b: Transfer) {
    && a.action.Received? && b.action.Received? && a.device == b.device
    && a.number.Some? && b.number.Some? && a.number.value == b.number.value
  }

  /** The transfer is made of the chunks from place `i` to before `j`, all of one message. */
  predicate MadeOf(t: Transfer, chunks: seq<Transfer>, i: nat, j: nat) {
    && i < j <= |chunks|
    && t.sequence == chunks[i].sequence && t.tick == chunks[i].tick && t.device == chunks[i].device
    && t.action == chunks[i].action && t.transport == chunks[i].transport && t.number == chunks[i].number
    && t.words == AllWords(chunks[i..j]) && t.declared == AllDeclared(chunks[i..j])
    && (t.complete <==> forall k :: i <= k < j ==> chunks[k].complete)
    && forall k :: i < k < j ==> Together(chunks[k - 1], chunks[k])
  }

  /** The transfers are the chunks cut at these places: between neighbours that belong together
      nowhere, and everywhere else. */
  predicate CutAt(transfers: seq<Transfer>, chunks: seq<Transfer>, cuts: seq<nat>) {
    && |cuts| == |transfers| + 1 && cuts[0] == 0 && cuts[|transfers|] == |chunks|
    && (forall b :: 0 <= b < |transfers| ==> MadeOf(transfers[b], chunks, cuts[b], cuts[b + 1]))
    && forall b :: 0 < b < |transfers| ==>
         0 < cuts[b] < |chunks| && !Together(chunks[cuts[b] - 1], chunks[cuts[b]])
  }

  lemma MadeOfPrefix(t: Transfer, chunks: seq<Transfer>, next: Transfer, i: nat, j: nat)
    requires MadeOf(t, chunks, i, j)
    ensures MadeOf(t, chunks + [next], i, j)
  {
    assert (chunks + [next])[i..j] == chunks[i..j];
    assert forall k :: 0 <= k < |chunks| ==> (chunks + [next])[k] == chunks[k];
  }

  lemma MadeOfOne(chunks: seq<Transfer>, next: Transfer)
    ensures MadeOf(next, chunks + [next], |chunks|, |chunks| + 1)
  {
    var more := chunks + [next];
    assert more[|chunks|..|chunks| + 1] == [next] && [next][..0] == [];
    assert AllWords([next]) == AllWords([]) + next.words == next.words;
    assert AllDeclared([next]) == AllDeclared([]) + next.declared;
  }

  lemma MadeOfMore(t: Transfer, chunks: seq<Transfer>, next: Transfer, i: nat)
    requires MadeOf(t, chunks, i, |chunks|) && Mergeable(t, next)
    ensures MadeOf(Joined(t, next), chunks + [next], i, |chunks| + 1)
  {
    hide AllWords, AllDeclared, Together, Mergeable;
    var (more, n) := (chunks + [next], |chunks|);
    MergeableMeans(t, chunks, next, i);
    assert more[i..n + 1] == chunks[i..n] + [next];
    SumsGrow(chunks[i..n], next);
    assert more[n] == next && forall k :: 0 <= k < n ==> more[k] == chunks[k];
    forall k | i < k <= n ensures Together(more[k - 1], more[k]) {
      if k < n { assert more[k - 1] == chunks[k - 1]; }
    }
  }

  /** All chunks of one transfer have its device and number. */
  lemma {:induction false} SameNumber(t: Transfer, chunks: seq<Transfer>, i: nat, j: nat, k: nat)
    requires MadeOf(t, chunks, i, j) && i <= k < j
    ensures chunks[k].device == t.device && chunks[k].number == t.number && chunks[k].action == t.action
    decreases k
  {
    if k > i {
      SameNumber(t, chunks, i, j, k - 1);
      assert Together(chunks[k - 1], chunks[k]);
    }
  }

  lemma MergeableMeans(t: Transfer, chunks: seq<Transfer>, next: Transfer, i: nat)
    requires MadeOf(t, chunks, i, |chunks|)
    ensures Mergeable(t, next) <==> Together(chunks[|chunks| - 1], next)
  {
    SameNumber(t, chunks, i, |chunks|, |chunks| - 1);
  }

  lemma {:induction false} MergedMeans(chunks: seq<Transfer>) returns (cuts: seq<nat>)
    ensures CutAt(Merged(chunks), chunks, cuts)
  {
    hide *;
    if chunks == [] {
      NothingMerged();
      cuts := [0];
      NothingCut();
    } else {
      var (rest, next) := (chunks[..|chunks| - 1], chunks[|chunks| - 1]);
      var before := MergedMeans(rest);
      MergedUnfold(chunks);
      assert rest + [next] == chunks;
      cuts := CutOn(Merged(rest), rest, next, before);
    }
  }

  lemma NothingCut()
    ensures CutAt([], [], [0])
  {
  }

  lemma CutOn(merged: seq<Transfer>, rest: seq<Transfer>, next: Transfer, before: seq<nat>) returns (cuts: seq<nat>)
    requires CutAt(merged, rest, before)
    ensures var n := |merged|;
      CutAt(if merged != [] && Mergeable(merged[n - 1], next) then merged[..n - 1] + [Joined(merged[n - 1], next)]
            else merged + [next], rest + [next], cuts)
  {
    hide MadeOf, Together, Mergeable, Joined;
    var n := |merged|;
    if n > 0 {
      MergeableMeans(merged[n - 1], rest, next, before[n - 1]);
      LastPlace(merged[n - 1], rest, before[n - 1]);
    }
    hide CutAt;
    if n > 0 && Mergeable(merged[n - 1], next) {
      cuts := CutJoins(merged, rest, next, before);
    } else {
      cuts := CutAppends(merged, rest, next, before);
    }
  }

  lemma CutJoins(merged: seq<Transfer>, rest: seq<Transfer>, next: Transfer, before: seq<nat>) returns (cuts: seq<nat>)
    requires CutAt(merged, rest, before) && merged != [] && Mergeable(merged[|merged| - 1], next)
    ensures CutAt(merged[..|merged| - 1] + [Joined(merged[|merged| - 1], next)], rest + [next], cuts)
  {
    hide MadeOf, Together, Mergeable, Joined;
    var (n, more) := (|merged|, rest + [next]);
    forall b | 0 <= b < n - 1 ensures MadeOf(merged[b], more, before[b], before[b + 1]) {
      MadeOfPrefix(merged[b], rest, next, before[b], before[b + 1]);
    }
    MadeOfMore(merged[n - 1], rest, next, before[n - 1]);
    cuts := before[..n] + [|more|];
    forall b | 0 < b < n ensures 0 < cuts[b] < |more| && !Together(more[cuts[b] - 1], more[cuts[b]]) {
      assert cuts[b] == before[b];
    }
  }

  lemma CutAppends(merged: seq<Transfer>, rest: seq<Transfer>, next: Transfer, before: seq<nat>)
    returns (cuts: seq<nat>)
    requires CutAt(merged, rest, before) && (merged != [] ==> rest != [] && !Together(rest[|rest| - 1], next))
    ensures CutAt(merged + [next], rest + [next], cuts)
  {
    hide MadeOf, Together;
    var (n, more) := (|merged|, rest + [next]);
    forall b | 0 <= b < n ensures MadeOf(merged[b], more, before[b], before[b + 1]) {
      MadeOfPrefix(merged[b], rest, next, before[b], before[b + 1]);
    }
    MadeOfOne(rest, next);
    cuts := before + [|more|];
    forall b | 0 < b < n + 1 ensures 0 < cuts[b] < |more| && !Together(more[cuts[b] - 1], more[cuts[b]]) {
      assert cuts[b] == before[b];
    }
  }

  lemma LastPlace(t: Transfer, chunks: seq<Transfer>, i: nat)
    requires MadeOf(t, chunks, i, |chunks|)
    ensures |chunks| > 0
  {
  }

  // ----- the parser -----

  /** The chunk number `n` of the trace, opened at `m` and over at `e`. */
  predicate ChunkSays(trace: seq<Line>, m: nat, e: nat, n: nat, t: Transfer)
    requires m < e <= |trace|
  {
    && trace[m].Message? && t.sequence == n + 1 && t.tick == trace[m].tick && t.device == trace[m].device
    && t.action == trace[m].action && t.declared == trace[m].length && t.words == WordsIn(trace, m, e)
    && t.number == NumberAt(trace, m, e) && Transported(trace, m, e, t.transport)
    && (t.complete <==> !Spoiled(trace, m, e) && |t.words| == t.declared)
  }

  /** A parsed trace, from its lines: one chunk for every message line, as its own lines say, and
      the transfers are these chunks, joined exactly where neighbours belong together. */
  lemma ParseMeans(trace: seq<Line>) returns (chunks: seq<Transfer>, places: seq<nat>, ends: seq<nat>, cuts: seq<nat>)
    ensures OpenedAt(trace, places) && |chunks| == |places| == |ends|
    ensures forall n :: 0 <= n < |chunks| ==>
      Lasts(trace, places[n], ends[n]) && ChunkSays(trace, places[n], ends[n], n, chunks[n])
    ensures CutAt(Parsed(trace), chunks, cuts)
  {
    var closed, over, last := RunMeans(trace);
    var s := Run(trace);
    chunks := Finished(Closed(s.records, s.pending));
    cuts := MergedMeans(chunks);
    places, ends := With(closed, last), With(over, if last.Some? then Some(|trace|) else None);
    hide Run, Merged, Claims, OpenedAt, CutAt, Described;
    forall n | 0 <= n < |chunks| ensures Described(trace, places[n], ends[n], Closed(s.records, s.pending)[n]) {
    }
    ChunksSay(trace, Closed(s.records, s.pending), places, ends);
  }

  lemma ChunksSay(trace: seq<Line>, all: seq<Pending>, places: seq<nat>, ends: seq<nat>)
    requires |all| == |places| == |ends| && forall n :: 0 <= n < |all| ==> Described(trace, places[n], ends[n], all[n])
    ensures forall n :: 0 <= n < |all| ==>
      Lasts(trace, places[n], ends[n]) && ChunkSays(trace, places[n], ends[n], n, Finished(all)[n])
  {
    hide WordsIn, Transported, Spoiled;
    forall n | 0 <= n < |all|
      ensures Lasts(trace, places[n], ends[n]) && ChunkSays(trace, places[n], ends[n], n, Finished(all)[n])
    {
      assert Described(trace, places[n], ends[n], all[n]);
    }
  }

  /** The octal words of a line with nothing else on it. */
  lemma {:induction false} OctalMeans(tokens: seq<Option<nat>>)
    requires None !in tokens
    ensures |Octal(tokens)| == |tokens| && forall i :: 0 <= i < |tokens| ==> tokens[i] == Some(Octal(tokens)[i])
  {
    if tokens != [] {
      var n := |tokens| - 1;
      OctalMeans(tokens[..n]);
      assert tokens[n] in tokens;
    }
  }
}
