/**
 The H316 interface trace of ncc/h316_journey.py, with its lines already cut into fields:
 a parser that collects the words shown for each transfer, and the merging of received
 chunks that carry the same firmware message number.
 */
module H316Trace {
  import opened Wrappers

  datatype Device = Device(modem: bool, line: nat)

  datatype Action = Sent | Received

  datatype Line =
    | Udp(tick: nat, device: Device, action: Action, sequence: nat)
    | Message(tick: nat, device: Device, action: Action, length: nat)
    | Words(tick: nat, device: Device, tokens: seq<Option<nat>>)  // None is a token that is not six octal digits
    | Repeat(tick: nat)
    | ReceiveDone(tick: nat, device: Device, number: nat)
    | Other

  datatype Transfer = Transfer(sequence: nat, tick: nat, device: Device, action: Action, declared: nat, words: seq<nat>,
                               transport: Option<nat>, number: Option<nat>, complete: bool)

  function AllWords(transfers: seq<Transfer>): seq<nat> {
    if transfers == [] then [] else AllWords(transfers[..|transfers| - 1]) + transfers[|transfers| - 1].words
  }

  function AllDeclared(transfers: seq<Transfer>): nat {
    if transfers == [] then 0 else AllDeclared(transfers[..|transfers| - 1]) + transfers[|transfers| - 1].declared
  }

  predicate AllComplete(transfers: seq<Transfer>) { forall t :: t in transfers ==> t.complete }

  /** A transfer may claim to be complete only with the declared number of words. */
  predicate Honest(transfers: seq<Transfer>) {
    forall t :: t in transfers && t.complete ==> |t.words| == t.declared
  }

  predicate Increasing(transfers: seq<Transfer>) {
    forall i, j :: 0 <= i < j < |transfers| ==> transfers[i].sequence < transfers[j].sequence
  }

  // ----- merging -----

  predicate Mergeable(previous: Transfer, next: Transfer) {
    && next.action.Received? && next.number.Some?
    && previous.action.Received? && previous.device == next.device && previous.number == next.number
  }

  function Joined(previous: Transfer, next: Transfer): Transfer {
    previous.(declared := previous.declared + next.declared, words := previous.words + next.words,
              complete := previous.complete && next.complete)
  }

  /** The runs of chunks that belong together, each chunk judged against its run's first. */
  function Groups(transfers: seq<Transfer>): seq<seq<Transfer>> {
    if transfers == [] then []
    else
      var (groups, next) := (Groups(transfers[..|transfers| - 1]), transfers[|transfers| - 1]);
      var n := |groups|;
      if n > 0 && groups[n - 1] != [] && Mergeable(groups[n - 1][0], next)
        then groups[..n - 1] + [groups[n - 1] + [next]]
      else groups + [[next]]
  }

  function Flatten(groups: seq<seq<Transfer>>): seq<Transfer> {
    if groups == [] then [] else Flatten(groups[..|groups| - 1]) + groups[|groups| - 1]
  }

  /** One transfer standing for a whole run. */
  function Whole(group: seq<Transfer>): Transfer
    requires group != []
  {
    group[0].(declared := AllDeclared(group), words := AllWords(group), complete := AllComplete(group))
  }

  predicate NonEmpty(groups: seq<seq<Transfer>>) {
    forall i :: 0 <= i < |groups| ==> groups[i] != []
  }

  lemma {:induction false} GroupsPartition(transfers: seq<Transfer>)
    ensures Flatten(Groups(transfers)) == transfers && NonEmpty(Groups(transfers))
  {
    hide Mergeable, Groups;
    if transfers == [] {
      NoGroups();
    } else {
      var (rest, next) := (transfers[..|transfers| - 1], transfers[|transfers| - 1]);
      GroupsPartition(rest);
      GroupsUnfold(transfers);
      var (before, after) := (Groups(rest), Groups(transfers));
      assert rest + [next] == transfers;
      if |after| == |before| {
        assert after[..|after| - 1] == before[..|before| - 1];
      } else {
        assert after[..|after| - 1] == before;
      }
    }
  }

  function Wholes(groups: seq<seq<Transfer>>): (merged: seq<Transfer>)
    requires NonEmpty(groups)
    ensures |merged| == |groups|
    ensures forall i :: 0 <= i < |groups| ==> merged[i] == Whole(groups[i])
  {
    seq(|groups|, i requires 0 <= i < |groups| => Whole(groups[i]))
  }

  lemma WholeGrows(group: seq<Transfer>, next: Transfer)
    requires group != []
    ensures Whole(group + [next]) == Joined(Whole(group), next)
  {
    assert (group + [next])[..|group|] == group;
    assert next in group + [next];
  }

  lemma WholeOne(next: Transfer)
    ensures Whole([next]) == next
  {
    var one := [next];
    assert one[..0] == [] && AllWords(one) == [] + next.words == next.words;
    assert AllDeclared(one) == AllDeclared([]) + next.declared;
    assert one[0] == next;
    assert AllComplete(one) ==> next.complete;
    assert Whole(one) == next.(declared := next.declared, words := next.words, complete := AllComplete(one));
  }

  /** What the newest chunk does to the transfers merged so far. */
  lemma {:induction false} MergedStep(groups: seq<seq<Transfer>>, next: Transfer)
    requires NonEmpty(groups)
    ensures var (merged, n) := (Wholes(groups), |groups|);
      if n > 0 && Mergeable(merged[n - 1], next) then
        && Mergeable(groups[n - 1][0], next)
        && NonEmpty(groups[..n - 1] + [groups[n - 1] + [next]])
        && Wholes(groups[..n - 1] + [groups[n - 1] + [next]]) == merged[..n - 1] + [Joined(merged[n - 1], next)]
      else
        && (n > 0 ==> !Mergeable(groups[n - 1][0], next))
        && NonEmpty(groups + [[next]]) && Wholes(groups + [[next]]) == merged + [next]
  {
    hide Whole;
    if |groups| > 0 {
      WholeGrows(groups[|groups| - 1], next);
      WholeHead(groups[|groups| - 1]);
    }
    WholeOne(next);
  }

  lemma WholeHead(group: seq<Transfer>)
    requires group != []
    ensures Whole(group).device == group[0].device && Whole(group).action == group[0].action
    ensures Whole(group).number == group[0].number && Whole(group).sequence == group[0].sequence
  {
  }

  /** The source's loop: the newest chunk is joined onto the last transfer or appended. */
  method ReassembleReceivedChunks(transfers: seq<Transfer>) returns (merged: seq<Transfer>)
    ensures NonEmpty(Groups(transfers)) && merged == Wholes(Groups(transfers))
  {
    hide Wholes, Whole, Groups;
    GroupsPartition([]);
    NoGroups();
    merged := [];
    assert Wholes([]) == [];
    for i := 0 to |transfers|
      invariant NonEmpty(Groups(transfers[..i])) && merged == Wholes(Groups(transfers[..i]))
    {
      var next := transfers[i];
      assert transfers[..i + 1][..i] == transfers[..i];
      MergedStep(Groups(transfers[..i]), next);
      GroupsUnfold(transfers[..i + 1]);
      var n := |merged|;
      if n > 0 && next.action.Received? && next.number.Some? && merged[n - 1].action.Received?
         && merged[n - 1].device == next.device && merged[n - 1].number == next.number {
        var previous := merged[n - 1];
        merged := merged[..n - 1];
        merged := merged + [previous.(declared := previous.declared + next.declared,
                                      words := previous.words + next.words,
                                      complete := previous.complete && next.complete)];
      } else {
        merged := merged + [next];
      }
    }
    assert transfers[..|transfers|] == transfers;
  }

  ghost function Merged(transfers: seq<Transfer>): seq<Transfer> {
    GroupsPartition(transfers);
    Wholes(Groups(transfers))
  }

  predicate Settled(transfers: seq<Transfer>) {
    forall i :: 0 < i < |transfers| ==> !Mergeable(transfers[i - 1], transfers[i])
  }

  lemma {:induction false} GroupsSettled(transfers: seq<Transfer>)
    ensures Settled(Merged(transfers))
  {
    hide Wholes, Whole, Groups;
    GroupsPartition(transfers);
    if transfers == [] {
      assert Groups([]) == [] by { NoGroups(); }
    } else {
      var (rest, next) := (transfers[..|transfers| - 1], transfers[|transfers| - 1]);
      GroupsPartition(rest);
      GroupsSettled(rest);
      MergedStep(Groups(rest), next);
      GroupsUnfold(transfers);
    }
  }

  lemma NoGroups()
    ensures Groups([]) == []
  {
  }

  lemma GroupsUnfold(transfers: seq<Transfer>)
    requires transfers != []
    ensures var (groups, next) := (Groups(transfers[..|transfers| - 1]), transfers[|transfers| - 1]);
      var n := |groups|;
      Groups(transfers) ==
        if n > 0 && groups[n - 1] != [] && Mergeable(groups[n - 1][0], next)
          then groups[..n - 1] + [groups[n - 1] + [next]]
        else groups + [[next]]
  {
  }

  lemma {:induction false} SettledGroups(transfers: seq<Transfer>)
    requires Settled(transfers)
    ensures Merged(transfers) == transfers
    ensures |Groups(transfers)| == |transfers|
    ensures forall i :: 0 <= i < |transfers| ==> Groups(transfers)[i] == [transfers[i]]
  {
    GroupsPartition(transfers);
    hide Whole, Groups, Mergeable;
    if transfers == [] {
      NoGroups();
    } else {
      var (rest, next) := (transfers[..|transfers| - 1], transfers[|transfers| - 1]);
      SettledGroups(rest);
      GroupsUnfold(transfers);
      if rest != [] {
        assert Groups(rest)[|rest| - 1] == [rest[|rest| - 1]];
        assert !Mergeable(transfers[|rest| - 1], transfers[|rest|]);
      }
      assert Groups(transfers) == Groups(rest) + [[next]];
      forall i | 0 <= i < |transfers| ensures Whole([transfers[i]]) == transfers[i] {
        WholeOne(transfers[i]);
      }
    }
  }

  lemma {:induction false} FlattenSums(groups: seq<seq<Transfer>>)
    requires NonEmpty(groups)
    ensures AllWords(Wholes(groups)) == AllWords(Flatten(groups))
    ensures AllDeclared(Wholes(groups)) == AllDeclared(Flatten(groups))
  {
    if groups != [] {
      var (rest, last) := (groups[..|groups| - 1], groups[|groups| - 1]);
      FlattenSums(rest);
      SumsAppend(Flatten(rest), last);
      assert Wholes(groups)[..|groups| - 1] == Wholes(rest);
    }
  }

  lemma NoSums()
    ensures AllWords([]) == [] && AllDeclared([]) == 0
  {
  }

  lemma SumsGrow(a: seq<Transfer>, last: Transfer)
    ensures AllWords(a + [last]) == AllWords(a) + last.words
      && AllDeclared(a + [last]) == AllDeclared(a) + last.declared
  {
    assert (a + [last])[..|a|] == a;
  }

  lemma {:induction false} SumsAppend(a: seq<Transfer>, b: seq<Transfer>)
    ensures AllWords(a + b) == AllWords(a) + AllWords(b)
    ensures AllDeclared(a + b) == AllDeclared(a) + AllDeclared(b)
  {
    hide AllWords, AllDeclared;
    if b == [] {
      assert a + b == a;
      NoSums();
      assert AllWords(a) + [] == AllWords(a);
    } else {
      var (rest, last) := (b[..|b| - 1], b[|b| - 1]);
      SumsAppend(a, rest);
      assert a + b == (a + rest) + [last] && b == rest + [last];
      SumsGrow(a + rest, last);
      SumsGrow(rest, last);
      assert AllWords(a) + (AllWords(rest) + last.words) == (AllWords(a) + AllWords(rest)) + last.words;
    }
  }

  lemma {:induction false} HonestWhole(group: seq<Transfer>)
    requires Honest(group) && AllComplete(group)
    ensures |AllWords(group)| == AllDeclared(group)
  {
    if group != [] {
      HonestWhole(group[..|group| - 1]);
    }
  }

  lemma {:induction false} FlattenMembers(groups: seq<seq<Transfer>>, i: nat)
    requires i < |groups|
    ensures forall t :: t in groups[i] ==> t in Flatten(groups)
  {
    if i < |groups| - 1 {
      FlattenMembers(groups[..|groups| - 1], i);
    }
  }

  /** Merging loses no word and no declared count, leaves nothing to merge, and so does
      nothing the second time; completeness stays honest: a merged transfer is complete
      exactly when all its chunks were. */
  lemma MergingLaws(transfers: seq<Transfer>)
    ensures AllWords(Merged(transfers)) == AllWords(transfers)
    ensures AllDeclared(Merged(transfers)) == AllDeclared(transfers)
    ensures Settled(Merged(transfers)) && Merged(Merged(transfers)) == Merged(transfers)
    ensures Honest(transfers) ==> Honest(Merged(transfers))
  {
    GroupsPartition(transfers);
    FlattenSums(Groups(transfers));
    GroupsSettled(transfers);
    SettledGroups(Merged(transfers));
    if Honest(transfers) {
      forall t | t in Merged(transfers) && t.complete ensures |t.words| == t.declared {
        var i :| 0 <= i < |Groups(transfers)| && Merged(transfers)[i] == t;
        FlattenMembers(Groups(transfers), i);
        HonestWhole(Groups(transfers)[i]);
      }
    }
  }

  /** Source order survives merging. */
  lemma {:induction false} MergedIncreasing(transfers: seq<Transfer>)
    requires Increasing(transfers)
    ensures Increasing(Merged(transfers))
    ensures transfers != [] ==>
      Merged(transfers) != []
      && Merged(transfers)[|Merged(transfers)| - 1].sequence <= transfers[|transfers| - 1].sequence
  {
    hide Merged, Mergeable, Joined;
    if transfers == [] {
      NothingMerged();
    } else {
      var (rest, next) := (transfers[..|transfers| - 1], transfers[|transfers| - 1]);
      MergedIncreasing(rest);
      MergedUnfold(transfers);
      if Merged(rest) != [] { JoinedSequence(Merged(rest), next); }
      assert rest != [] ==> rest[|rest| - 1].sequence < next.sequence;
      if rest == [] {
        NothingMerged();
      }
    }
  }

  lemma NothingMerged()
    ensures Merged([]) == []
  {
    GroupsPartition([]);
    NoGroups();
  }

  lemma JoinedSequence(merged: seq<Transfer>, next: Transfer)
    requires merged != []
    ensures Joined(merged[|merged| - 1], next).sequence == merged[|merged| - 1].sequence
  {
  }

  /** What the newest chunk does to the merged transfers. */
  lemma MergedUnfold(transfers: seq<Transfer>)
    requires transfers != []
    ensures var (before, next) := (Merged(transfers[..|transfers| - 1]), transfers[|transfers| - 1]);
      Merged(transfers) ==
        if before != [] && Mergeable(before[|before| - 1], next)
          then before[..|before| - 1] + [Joined(before[|before| - 1], next)]
        else before + [next]
  {
    hide Wholes, Whole, Groups;
    var (rest, next) := (transfers[..|transfers| - 1], transfers[|transfers| - 1]);
    GroupsPartition(transfers);
    GroupsPartition(rest);
    MergedStep(Groups(rest), next);
    GroupsUnfold(transfers);
  }

  // ----- parsing -----

  datatype Pending = Pending(tick: nat, device: Device, action: Action, declared: nat, words: seq<nat>,
                             transport: Option<nat>, number: Option<nat>, compressed: bool)

  function Octal(tokens: seq<Option<nat>>): seq<nat> {
    if tokens == [] then []
    else var (rest, last) := (tokens[..|tokens| - 1], tokens[|tokens| - 1]);
      Octal(rest) + match last case None => [] case Some(word) => [word]
  }

  /** A transfer whose word lines may still follow. */
  type OpenTransfer = Option<(nat, Device, Action)>

  function NextOpen(open: OpenTransfer, line: Line): OpenTransfer {
    match line
    case Message(tick, device, action, _) => Some((tick, device, action))
    case ReceiveDone(_, device, _) =>
      if open.Some? && open.value.1 == device && open.value.2.Received? then None else open
    case _ => open
  }

  function Gain(open: OpenTransfer, line: Line): seq<nat> {
    match line
    case Words(tick, device, tokens) =>
      if open.Some? && open.value.0 == tick && open.value.1 == device then Octal(tokens) else []
    case _ => []
  }

  /** The transfer that a following word line belongs to: the last one announced, unless it
      was a receive since reported done. */
  function Open(trace: seq<Line>): OpenTransfer {
    if trace == [] then None else NextOpen(Open(trace[..|trace| - 1]), trace[|trace| - 1])
  }

  /** Every word the trace shows for the transfer open at the time. */
  function Shown(trace: seq<Line>): seq<nat> {
    if trace == [] then []
    else var rest := trace[..|trace| - 1]; Shown(rest) + Gain(Open(rest), trace[|trace| - 1])
  }

  function Count(line: Line): nat { if line.Message? then line.length else 0 }

  /** Every word count the trace announces. */
  function Announced(trace: seq<Line>): nat {
    if trace == [] then 0 else Announced(trace[..|trace| - 1]) + Count(trace[|trace| - 1])
  }

  function PendingWords(records: seq<Pending>): seq<nat> {
    if records == [] then [] else PendingWords(records[..|records| - 1]) + records[|records| - 1].words
  }

  function PendingDeclared(records: seq<Pending>): nat {
    if records == [] then 0 else PendingDeclared(records[..|records| - 1]) + records[|records| - 1].declared
  }

  function Finished(records: seq<Pending>): (transfers: seq<Transfer>)
    ensures |transfers| == |records|
  {
    seq(|records|, i requires 0 <= i < |records| =>
      var r := records[i];
      Transfer(i + 1, r.tick, r.device, r.action, r.declared, r.words, r.transport, r.number,
               !r.compressed && |r.words| == r.declared))
  }

  lemma {:induction false} FinishedSums(records: seq<Pending>)
    ensures AllWords(Finished(records)) == PendingWords(records)
    ensures AllDeclared(Finished(records)) == PendingDeclared(records)
  {
    if records != [] {
      var rest := records[..|records| - 1];
      FinishedSums(rest);
      assert Finished(records)[..|records| - 1] == Finished(rest);
    }
  }

  function Closed(records: seq<Pending>, pending: Option<Pending>): seq<Pending> {
    records + match pending case None => [] case Some(p) => [p]
  }

  function OpenOf(pending: Option<Pending>): OpenTransfer {
    match pending case None => None case Some(p) => Some((p.tick, p.device, p.action))
  }

  type Transports = map<(nat, Device), nat>

  datatype Reading = Reading(records: seq<Pending>, pending: Option<Pending>, lastReceived: Transports)

  /** What one line does to the records closed so far, the transfer in hand and the
      transport numbers received but not yet claimed. */
  function Step(s: Reading, line: Line): Reading {
    match line
    case Udp(tick, device, action, sequence) =>
      if action.Received? then s.(lastReceived := s.lastReceived[(tick, device) := sequence])
      else if s.pending.Some? && s.pending.value.device == device && s.pending.value.action.Sent?
        then s.(pending := Some(s.pending.value.(transport := Some(sequence))))
      else s
    case Message(tick, device, action, length) =>
      var key := (tick, device);
      var transport := if key in s.lastReceived then Some(s.lastReceived[key]) else None;
      Reading(Closed(s.records, s.pending), Some(Pending(tick, device, action, length, [], transport, None, false)),
              s.lastReceived - {key})
    case Words(tick, device, tokens) =>
      if s.pending.Some? && tick == s.pending.value.tick && device == s.pending.value.device
        then s.(pending := Some(Grown(s.pending.value, tokens)))
      else s
    case Repeat(tick) =>
      if s.pending.Some? && tick == s.pending.value.tick
        then s.(pending := Some(s.pending.value.(compressed := true)))
      else s
    case ReceiveDone(_, device, number) =>
      if s.pending.Some? && s.pending.value.action.Received? && s.pending.value.device == device
        then s.(records := Closed(s.records, Some(s.pending.value.(number := Some(number)))), pending := None)
      else s
    case Other => s
  }

  function Grown(pending: Pending, tokens: seq<Option<nat>>): Pending {
    pending.(words := pending.words + Octal(tokens), compressed := pending.compressed || None in tokens)
  }

  function Run(trace: seq<Line>): Reading {
    if trace == [] then Reading([], None, map[]) else Step(Run(trace[..|trace| - 1]), trace[|trace| - 1])
  }

  ghost function Parsed(trace: seq<Line>): seq<Transfer> {
    Merged(Finished(Closed(Run(trace).records, Run(trace).pending)))
  }

  // ----- what a parse accounts for -----

  lemma CloseOne(records: seq<Pending>, p: Pending)
    ensures PendingWords(Closed(records, Some(p))) == PendingWords(records) + p.words
    ensures PendingDeclared(Closed(records, Some(p))) == PendingDeclared(records) + p.declared
  {
    assert (records + [p])[..|records|] == records;
  }

  function WordsOf(s: Reading): seq<nat> { PendingWords(Closed(s.records, s.pending)) }

  function DeclaredOf(s: Reading): nat { PendingDeclared(Closed(s.records, s.pending)) }

  lemma StepAccounts(s: Reading, line: Line)
    ensures WordsOf(Step(s, line)) == WordsOf(s) + Gain(OpenOf(s.pending), line)
    ensures DeclaredOf(Step(s, line)) == DeclaredOf(s) + Count(line)
    ensures OpenOf(Step(s, line).pending) == NextOpen(OpenOf(s.pending), line)
  {
    hide PendingWords, PendingDeclared, Octal;
    var after := Step(s, line);
    assert forall a: seq<nat> :: a + [] == a;
    assert forall r: seq<Pending> :: Closed(r, None) == r;
    if s.pending.Some? {
      CloseOne(s.records, s.pending.value);
    }
    if after.pending.Some? {
      CloseOne(after.records, after.pending.value);
    } else if line.ReceiveDone? && s.pending.Some? {
      CloseOne(s.records, s.pending.value.(number := Some(line.number)));
    }
  }

  lemma NothingRead()
    ensures WordsOf(Run([])) == [] && DeclaredOf(Run([])) == 0 && OpenOf(Run([]).pending) == None
  {
  }

  lemma {:induction false} RunAccounts(trace: seq<Line>)
    ensures WordsOf(Run(trace)) == Shown(trace) && DeclaredOf(Run(trace)) == Announced(trace)
    ensures OpenOf(Run(trace).pending) == Open(trace)
  {
    hide WordsOf, DeclaredOf, OpenOf, Step, Gain, NextOpen, Count;
    if trace == [] {
      NothingRead();
    } else {
      RunAccounts(trace[..|trace| - 1]);
      StepAccounts(Run(trace[..|trace| - 1]), trace[|trace| - 1]);
    }
  }

  /** A parsed trace accounts for every word it shows and every count it announces, in
      order; source sequences increase, only exact transfers are called complete, and no
      two neighbours are left that belong to one firmware message. */
  lemma ParsedLaws(trace: seq<Line>)
    ensures AllWords(Parsed(trace)) == Shown(trace) && AllDeclared(Parsed(trace)) == Announced(trace)
    ensures Increasing(Parsed(trace)) && Honest(Parsed(trace)) && Settled(Parsed(trace))
  {
    hide Merged, Run, AllWords, AllDeclared, PendingWords, PendingDeclared, Shown, Announced, Open;
    var finished := Finished(Closed(Run(trace).records, Run(trace).pending));
    RunAccounts(trace);
    FinishedSums(Closed(Run(trace).records, Run(trace).pending));
    MergingLaws(finished);
    MergedIncreasing(finished);
  }

  // ----- the parser -----

  /** A word line read into the pending transfer, token by token. */
  method ReadWords(pending: Pending, tokens: seq<Option<nat>>) returns (grown: Pending)
    ensures grown == Grown(pending, tokens)
  {
    var words, compressed := pending.words, pending.compressed;
    for k := 0 to |tokens|
      invariant words == pending.words + Octal(tokens[..k])
      invariant compressed == (pending.compressed || None in tokens[..k])
    {
      assert tokens[..k + 1][..k] == tokens[..k] && tokens[..k + 1] == tokens[..k] + [tokens[k]];
      match tokens[k] {
        case None => compressed := true;
        case Some(word) => words := words + [word];
      }
    }
    assert tokens[..|tokens|] == tokens;
    return pending.(words := words, compressed := compressed);
  }

  method ReadLine(line: Line, records: seq<Pending>, pending: Option<Pending>, lastReceived: Transports)
    returns (records': seq<Pending>, pending': Option<Pending>, lastReceived': Transports)
    ensures Reading(records', pending', lastReceived') == Step(Reading(records, pending, lastReceived), line)
  {
    records', pending', lastReceived' := records, pending, lastReceived;
    match line {
      case Udp(tick, device, action, sequence) =>
        if action.Received? {
          lastReceived' := lastReceived[(tick, device) := sequence];
        } else if pending.Some? && pending.value.device == device && pending.value.action.Sent? {
          pending' := Some(pending.value.(transport := Some(sequence)));
        }
      case Message(tick, device, action, length) =>
        records' := Closed(records, pending);
        var key := (tick, device);
        var transport := if key in lastReceived then Some(lastReceived[key]) else None;
        lastReceived' := lastReceived - {key};
        pending' := Some(Pending(tick, device, action, length, [], transport, None, false));
      case Words(tick, device, tokens) =>
        if pending.Some? && tick == pending.value.tick && device == pending.value.device {
          var grown := ReadWords(pending.value, tokens);
          pending' := Some(grown);
        }
      case Repeat(tick) =>
        if pending.Some? && tick == pending.value.tick {
          pending' := Some(pending.value.(compressed := true));
        }
      case ReceiveDone(_, device, number) =>
        if pending.Some? && pending.value.action.Received? && pending.value.device == device {
          pending' := Some(pending.value.(number := Some(number)));
          records', pending' := Closed(records, pending'), None;
        }
      case Other =>
    }
  }

  method ParseH316Trace(trace: seq<Line>) returns (transfers: seq<Transfer>)
    ensures transfers == Parsed(trace)
  {
    hide Step, Finished, Wholes, Whole, Groups;
    var records, pending, lastReceived := [], None, map[];
    for i := 0 to |trace|
      invariant Reading(records, pending, lastReceived) == Run(trace[..i])
    {
      assert trace[..i + 1][..i] == trace[..i];
      records, pending, lastReceived := ReadLine(trace[i], records, pending, lastReceived);
    }
    assert trace[..|trace|] == trace;
    records := Closed(records, pending);
    transfers := ReassembleReceivedChunks(Finished(records));
  }
}
