/**
 What the relay loop of ncc/historical_terminal.py does over one run of the world: guest output
 that may grow at any moment, operator reads, and a guest that may stop while it is typed to.
 */
module RelayCourse {
  import opened Octets
  import ConsoleProjection
  import Teletype
  import TerminalSession

  /** What the world does in one pass of the loop. */
  datatype Turn = Turn(
    grown: seq<Octet>,        // guest output added before the pass looks for it
    alive: bool,              // the guest process is still running when it is asked
    readable: bool,           // the operator's descriptor became readable in time
    incoming: seq<Octet>,     // what reading it then returns; nothing at end of file
    takes: nat,               // how many bytes the guest takes before sending to it raises
    unseen: seq<Octet>,       // guest output added after the look
    afterwards: seq<Octet>)   // guest output added after the second look of an exit

  datatype Rules = Rules(start: nat, maxInput: nat, maxOutput: nat, cutEnabled: bool)

  /** Why the loop is over, if it is; `exiting` when the operator had asked to leave. */
  datatype Ending = Running | Returned(reason: TerminalSession.EndReason, exiting: bool) | Raised

  datatype Course = Course(
    ending: Ending,
    recorded: seq<Octet>,     // operator bytes in the record
    sent: seq<Octet>,         // operator bytes the guest has taken
    controls: seq<(TerminalSession.Control, int)>,
    buffer: seq<Octet>,       // every byte the guest has put out
    position: nat,            // how far they are recorded
    history: seq<ConsoleProjection.Atom>)

  /** What one read gives the guest. */
  function Forwarded(turn: Turn, cutEnabled: bool): seq<Octet> {
    Teletype.Keys(turn.incoming[..Teletype.Taken(turn.incoming, cutEnabled)])
  }

  predicate AsksToLeave(turn: Turn, cutEnabled: bool) {
    var n := Teletype.Taken(turn.incoming, cutEnabled);
    n < |turn.incoming| && turn.incoming[n] == Teletype.LOCAL_EXIT
  }

  /** The records of operator bytes that were refused. */
  function Refusals(incoming: seq<Octet>, cutEnabled: bool): seq<(TerminalSession.Control, int)> {
    var taken := incoming[..Teletype.Taken(incoming, cutEnabled)];
    var (blocked, rejected) := (Teletype.Count(taken, Teletype.Blocked), Teletype.Count(taken, Teletype.Rejected));
    (if blocked > 0 then [(TerminalSession.BlockedSimulatorWru, blocked)] else [])
    + (if rejected > 0 then [(TerminalSession.RejectedNonSevenBit, rejected)] else [])
  }

  function Grown(c: Course, output: seq<Octet>): Course { c.(buffer := c.buffer + output) }

  /** The new output would pass the limit. */
  predicate Over(rules: Rules, c: Course) { |c.buffer| > c.position && |c.buffer| - rules.start > rules.maxOutput }

  /** All output there is has been recorded and given to the filter. */
  function Looked(c: Course): Course
    requires c.position <= |c.buffer|
  {
    c.(position := |c.buffer|, history := c.history + ConsoleProjection.Atoms(c.buffer[c.position..]))
  }

  function Stopped(c: Course, reason: TerminalSession.EndReason, exiting: bool): Course {
    c.(ending := Returned(reason, exiting))
  }

  /** One pass of the loop. */
  function Pass(rules: Rules, c: Course, turn: Turn): (r: Course)
    requires c.position <= |c.buffer|
    ensures c.position <= r.position <= |r.buffer|
  {
    var d := Grown(c, turn.grown);
    if Over(rules, d) then Stopped(Grown(d, turn.unseen), TerminalSession.OutputLimit, false)
    else
      var e := Looked(d);
      if !turn.alive then Stopped(Grown(e, turn.unseen), TerminalSession.ProcessExit, false)
      else if !turn.readable then Grown(e.(history := e.history + [ConsoleProjection.Flush]), turn.unseen)
      else if turn.incoming == [] then Stopped(Grown(e, turn.unseen), TerminalSession.InputEof, false)
      else Typing(rules, e, turn)
  }

  /** The rest of a pass that has read something. */
  function Typing(rules: Rules, c: Course, turn: Turn): (r: Course)
    requires c.position <= |c.buffer|
    ensures c.position <= r.position <= |r.buffer|
  {
    var f := Forwarded(turn, rules.cutEnabled);
    var d := Grown(c.(controls := c.controls + Refusals(turn.incoming, rules.cutEnabled)), turn.unseen);
    if f != [] && |c.sent| + |f| > rules.maxInput then Stopped(d, TerminalSession.InputLimit, false)
    else
      var e := d.(recorded := d.recorded + f, sent := d.sent + if turn.takes < |f| then f[..turn.takes] else f);
      if turn.takes < |f| then e.(ending := Raised)
      else if !AsksToLeave(turn, rules.cutEnabled) then e
      else Left(rules, e, turn)
  }

  /** The last look, after the pause. */
  function Left(rules: Rules, c: Course, turn: Turn): (r: Course)
    requires c.position <= |c.buffer|
    ensures c.position <= r.position <= |r.buffer|
  {
    if Over(rules, c) then Stopped(Grown(c, turn.afterwards), TerminalSession.OutputLimit, true)
    else Stopped(Grown(Looked(c), turn.afterwards), TerminalSession.OperatorExit, true)
  }

  /** The loop over a run of the world; it ends without a reason only when the run does. */
  function Relayed(rules: Rules, buffer: seq<Octet>, turns: seq<Turn>): (c: Course)
    requires rules.start <= |buffer|
    ensures rules.start <= c.position <= |c.buffer|
  {
    if turns == [] then Course(Running, [], [], [], buffer, rules.start, [])
    else
      var before := Relayed(rules, buffer, turns[..|turns| - 1]);
      if before.ending.Running? then Pass(rules, before, turns[|turns| - 1]) else before
  }

  // ----- what holds of every run -----

  predicate WithinLimits(rules: Rules, c: Course) {
    && rules.start <= c.position && c.position - rules.start <= rules.maxOutput && |c.recorded| <= rules.maxInput
    && forall b :: b in c.recorded ==> Teletype.ForGuest(b)
  }

  ghost predicate Kept(rules: Rules, c: Course) {
    && WithinLimits(rules, c) && c.position <= |c.buffer|
    && ConsoleProjection.Bytes(c.history) == c.buffer[rules.start..c.position]
    && (if c.ending.Raised? then c.sent < c.recorded else c.sent == c.recorded)
  }

  lemma GrownKept(rules: Rules, c: Course, output: seq<Octet>)
    requires Kept(rules, c)
    ensures Kept(rules, Grown(c, output))
  {
    hide ConsoleProjection.Bytes;
    assert (c.buffer + output)[rules.start..c.position] == c.buffer[rules.start..c.position];
  }

  lemma LookedKept(rules: Rules, c: Course)
    requires Kept(rules, c) && !Over(rules, c)
    ensures Kept(rules, Looked(c))
  {
    hide ConsoleProjection.Bytes;
    var available := c.buffer[c.position..];
    ConsoleProjection.BytesAppend(c.history, ConsoleProjection.Atoms(available));
    ConsoleProjection.AtomBytes(available);
    assert c.buffer[rules.start..c.position] + available == c.buffer[rules.start..|c.buffer|];
  }

  lemma FlushKept(rules: Rules, c: Course)
    requires Kept(rules, c)
    ensures Kept(rules, c.(history := c.history + [ConsoleProjection.Flush]))
  {
    ConsoleProjection.BytesAppend(c.history, [ConsoleProjection.Flush]);
    assert ConsoleProjection.Bytes([ConsoleProjection.Flush]) == [];
  }

  lemma PassKept(rules: Rules, c: Course, turn: Turn)
    requires Kept(rules, c) && c.ending.Running?
    ensures Kept(rules, Pass(rules, c, turn))
  {
    hide Kept, Typing, Over, Stopped;
    KeptPlaced(rules, c);
    var d := Grown(c, turn.grown);
    GrownKept(rules, c, turn.grown);
    if Over(rules, d) {
      GrownKept(rules, d, turn.unseen);
      StoppedKept(rules, Grown(d, turn.unseen), TerminalSession.OutputLimit, false);
    } else {
      LookedKept(rules, d);
      var e := Looked(d);
      GrownKept(rules, e, turn.unseen);
      if !turn.alive {
        StoppedKept(rules, Grown(e, turn.unseen), TerminalSession.ProcessExit, false);
      } else if !turn.readable {
        FlushKept(rules, e);
        GrownKept(rules, e.(history := e.history + [ConsoleProjection.Flush]), turn.unseen);
      } else if turn.incoming == [] {
        StoppedKept(rules, Grown(e, turn.unseen), TerminalSession.InputEof, false);
      } else {
        TypingKept(rules, e, turn);
      }
    }
  }

  lemma KeptPlaced(rules: Rules, c: Course)
    requires Kept(rules, c)
    ensures c.position <= |c.buffer|
  {
  }

  lemma StoppedKept(rules: Rules, c: Course, reason: TerminalSession.EndReason, exiting: bool)
    requires Kept(rules, c) && !c.ending.Raised?
    ensures Kept(rules, Stopped(c, reason, exiting))
  {
    hide ConsoleProjection.Bytes;
  }

  lemma TypingKept(rules: Rules, c: Course, turn: Turn)
    requires Kept(rules, c) && c.ending.Running?
    ensures Kept(rules, Typing(rules, c, turn))
  {
    hide ConsoleProjection.Bytes, Refusals, AsksToLeave, Looked, Forwarded, Teletype.ForGuest;
    var f := Forwarded(turn, rules.cutEnabled);
    ForwardedIsForGuest(turn, rules.cutEnabled);
    var d := Grown(c.(controls := c.controls + Refusals(turn.incoming, rules.cutEnabled)), turn.unseen);
    GrownKept(rules, c.(controls := c.controls + Refusals(turn.incoming, rules.cutEnabled)), turn.unseen);
    if !(f != [] && |c.sent| + |f| > rules.maxInput) {
      var e := d.(recorded := d.recorded + f, sent := d.sent + if turn.takes < |f| then f[..turn.takes] else f);
      if turn.takes >= |f| && AsksToLeave(turn, rules.cutEnabled) {
        if Over(rules, e) {
          GrownKept(rules, e, turn.afterwards);
        } else {
          LookedKept(rules, e);
          GrownKept(rules, Looked(e), turn.afterwards);
          LookedEnding(e);
        }
      }
    }
  }

  lemma LookedEnding(c: Course)
    requires c.position <= |c.buffer|
    ensures Looked(c).ending == c.ending
  {
  }

  lemma ForwardedIsForGuest(turn: Turn, cutEnabled: bool)
    ensures forall b :: b in Forwarded(turn, cutEnabled) ==>
      Teletype.ForGuest(b) && !(cutEnabled && b == Teletype.LOCAL_CUT)
  {
    Teletype.KeysAreForGuest(turn.incoming[..Teletype.Taken(turn.incoming, cutEnabled)], cutEnabled);
  }

  /** In every run: both limits hold; nothing reserved is recorded; the filter was given exactly
      the recorded output; and what is recorded of the operator is what the guest took, if and
      only if no sending has raised. */
  lemma {:induction false} RelayedLaws(rules: Rules, buffer: seq<Octet>, turns: seq<Turn>)
    requires rules.start <= |buffer|
    ensures var c := Relayed(rules, buffer, turns);
      && WithinLimits(rules, c) && ConsoleProjection.Bytes(c.history) == c.buffer[rules.start..c.position]
      && c.sent <= c.recorded && (c.sent == c.recorded <==> !c.ending.Raised?)
  {
    RelayedKept(rules, buffer, turns);
    hide Relayed, ConsoleProjection.Bytes;
  }

  lemma {:induction false} RelayedKept(rules: Rules, buffer: seq<Octet>, turns: seq<Turn>)
    requires rules.start <= |buffer|
    ensures Kept(rules, Relayed(rules, buffer, turns))
  {
    hide Kept, Pass;
    if turns == [] {
      NothingKept(rules, buffer);
    } else {
      var rest := turns[..|turns| - 1];
      RelayedKept(rules, buffer, rest);
      if Relayed(rules, buffer, rest).ending.Running? {
        PassKept(rules, Relayed(rules, buffer, rest), turns[|turns| - 1]);
      }
    }
  }

  lemma NothingKept(rules: Rules, buffer: seq<Octet>)
    requires rules.start <= |buffer|
    ensures Kept(rules, Course(Running, [], [], [], buffer, rules.start, []))
  {
  }

  // ----- where it ended -----

  /** What a run of turns types into the record. */
  function Typed(turns: seq<Turn>, cutEnabled: bool): seq<Octet> {
    if turns == [] then []
    else Typed(turns[..|turns| - 1], cutEnabled) + Read(turns[|turns| - 1], cutEnabled)
  }

  function Read(turn: Turn, cutEnabled: bool): seq<Octet> { if turn.readable then Forwarded(turn, cutEnabled) else [] }

  /** What the turn that ended the loop adds to the record. */
  function LastTyped(turn: Turn, ending: Ending, cutEnabled: bool): seq<Octet> {
    if ending.Raised? || (ending.Returned? && ending.exiting) then Forwarded(turn, cutEnabled) else []
  }

  /** What the guest put out after the last look. */
  function Missed(turn: Turn, ending: Ending): seq<Octet> {
    if ending.Returned? && ending.exiting then turn.afterwards else turn.unseen
  }

  /** The endings that put all recorded guest text on the screen. */
  predicate Finishes(ending: Ending) {
    ending.Returned? && (ending.exiting || ending.reason.ProcessExit? || ending.reason.InputEof?)
  }

  predicate Overflows(ending: Ending) { ending.Returned? && ending.reason.OutputLimit? }

  ghost predicate EndedAt(rules: Rules, buffer: seq<Octet>, turns: seq<Turn>, k: nat)
    requires rules.start <= |buffer|
  {
    && k < |turns| && Relayed(rules, buffer, turns[..k]).ending.Running?
    && Relayed(rules, buffer, turns) == Pass(rules, Relayed(rules, buffer, turns[..k]), turns[k])
  }

  lemma {:induction false} EndsOnce(rules: Rules, buffer: seq<Octet>, turns: seq<Turn>) returns (k: nat)
    requires rules.start <= |buffer| && !Relayed(rules, buffer, turns).ending.Running?
    ensures EndedAt(rules, buffer, turns, k)
  {
    hide Pass;
    var rest := turns[..|turns| - 1];
    if Relayed(rules, buffer, rest).ending.Running? {
      k := |rest|;
    } else {
      k := EndsOnce(rules, buffer, rest);
      assert rest[..k] == turns[..k];
    }
  }

  /** While the loop runs, the record holds exactly what was typed. */
  lemma {:induction false} RunningTyped(rules: Rules, buffer: seq<Octet>, turns: seq<Turn>)
    requires rules.start <= |buffer| && Relayed(rules, buffer, turns).ending.Running?
    ensures Relayed(rules, buffer, turns).recorded == Typed(turns, rules.cutEnabled)
  {
    hide Forwarded, Refusals, AsksToLeave;
    if turns != [] {
      var (rest, turn) := (turns[..|turns| - 1], turns[|turns| - 1]);
      RunningTyped(rules, buffer, rest);
      NothingTyped(turn, rules.cutEnabled);
    }
  }

  lemma NothingTyped(turn: Turn, cutEnabled: bool)
    ensures turn.incoming == [] ==> Forwarded(turn, cutEnabled) == []
  {
  }

  /** A send raises in this pass: the first look is within the output limit, the guest is alive
      and something is read, the input limit is kept, and the guest stops before it has all. */
  predicate SendRaises(rules: Rules, c: Course, turn: Turn) {
    && !Over(rules, Grown(c, turn.grown)) && turn.alive && turn.readable
    && |c.sent| + |Forwarded(turn, rules.cutEnabled)| <= rules.maxInput
    && turn.takes < |Forwarded(turn, rules.cutEnabled)|
  }

  lemma OnePass(rules: Rules, c: Course, turn: Turn)
    requires c.position <= |c.buffer| && c.ending.Running?
    ensures var r := Pass(rules, c, turn);
      && (r.ending != Running ==> r.recorded == c.recorded + LastTyped(turn, r.ending, rules.cutEnabled))
      && (r.ending.Raised? <==> SendRaises(rules, c, turn))
      && (r.ending.Raised? ==>
            && turn.takes < |Forwarded(turn, rules.cutEnabled)|
            && r.sent == c.sent + Forwarded(turn, rules.cutEnabled)[..turn.takes])
      && (r.ending.Returned? && !Overflows(r.ending) ==> r.buffer[r.position..] == Missed(turn, r.ending))
      && (Overflows(r.ending) ==> |r.buffer| - |Missed(turn, r.ending)| - rules.start > rules.maxOutput)
      && (r.ending.Returned? && r.ending.reason.InputLimit? ==>
            |c.sent| + |Forwarded(turn, rules.cutEnabled)| > rules.maxInput)
  {
    NothingTyped(turn, rules.cutEnabled);
    hide Forwarded, Refusals, AsksToLeave;
  }

  /** When a pass ends the loop, and why. */
  lemma EndingsMean(rules: Rules, c: Course, turn: Turn)
    requires c.position <= |c.buffer| && c.ending.Running?
    ensures var (end, typed) := (Pass(rules, c, turn).ending, Forwarded(turn, rules.cutEnabled));
      var tooMuch := |c.buffer| + |turn.grown| > c.position
        && |c.buffer| + |turn.grown| - rules.start > rules.maxOutput;
      var heard := !tooMuch && turn.alive && turn.readable;
      var tooLong := typed != [] && |c.sent| + |typed| > rules.maxInput;
      var leaves := heard && !tooLong && turn.takes >= |typed| && AsksToLeave(turn, rules.cutEnabled);
      && (end == Returned(TerminalSession.OutputLimit, false) <==> tooMuch)
      && (end == Returned(TerminalSession.ProcessExit, false) <==> !tooMuch && !turn.alive)
      && (end == Returned(TerminalSession.InputEof, false) <==> heard && turn.incoming == [])
      && (end == Returned(TerminalSession.InputLimit, false) <==> heard && tooLong)
      && (end.Raised? <==> heard && !tooLong && turn.takes < |typed|)
      && (end == Returned(TerminalSession.OperatorExit, true) || end == Returned(TerminalSession.OutputLimit, true)
          <==> leaves)
      && (end == Returned(TerminalSession.OutputLimit, true) <==>
            leaves && turn.unseen != []
            && |c.buffer| + |turn.grown| + |turn.unseen| - rules.start > rules.maxOutput)
  {
    NothingTyped(turn, rules.cutEnabled);
    if turn.incoming == [] {
      NothingAsked(turn, rules.cutEnabled);
    }
    hide Forwarded, Refusals, AsksToLeave;
  }

  /** When nothing is there to be read, a prompt that the guest has just put out is on the screen. */
  lemma QuietShowsPrompt(rules: Rules, c: Course, turn: Turn)
    requires c.position <= |c.buffer| && turn.alive && !turn.readable
    requires |c.buffer| + |turn.grown| == c.position || |c.buffer| + |turn.grown| - rules.start <= rules.maxOutput
    ensures var output := c.history + ConsoleProjection.Atoms((c.buffer + turn.grown)[c.position..]);
      var (line, shown) := (ConsoleProjection.Bytes(ConsoleProjection.OpenLine(output)),
                            ConsoleProjection.Shown(Pass(rules, c, turn).history));
      if line == [0x2A] || line == [0x2A, 0x20] then shown == ConsoleProjection.ClosedShown(output) + line
      else shown == ConsoleProjection.Shown(output)
  {
    hide ConsoleProjection.Shown, ConsoleProjection.ClosedShown, ConsoleProjection.OpenLine, ConsoleProjection.Bytes;
    ConsoleProjection.FlushShowsPrompt(c.history + ConsoleProjection.Atoms((c.buffer + turn.grown)[c.position..]));
  }

  lemma NothingAsked(turn: Turn, cutEnabled: bool)
    requires turn.incoming == []
    ensures !AsksToLeave(turn, cutEnabled)
  {
  }

  /** Where and how the loop ended. The record holds what was typed in all the passes before, and
      from the last one what was read if it was sent or sending it raised. It differs from what
      the guest has if and only if that send raised, and then by the refused end of that read. Output is left
      over exactly when the guest put some out after the last look, and that is what is left. */
  lemma EndingLaws(rules: Rules, buffer: seq<Octet>, turns: seq<Turn>, k: nat)
    requires rules.start <= |buffer| && EndedAt(rules, buffer, turns, k)
    requires !Relayed(rules, buffer, turns).ending.Running?
    ensures var (c, turn, cut) := (Relayed(rules, buffer, turns), turns[k], rules.cutEnabled);
      && c.recorded == Typed(turns[..k], cut) + LastTyped(turn, c.ending, cut)
      && (c.ending.Raised? <==> SendRaises(rules, Relayed(rules, buffer, turns[..k]), turn))
      && (c.sent == c.recorded <==> !c.ending.Raised?)
      && (c.ending.Raised? ==>
            && turn.takes < |Forwarded(turn, cut)|
            && c.sent == Typed(turns[..k], cut) + Forwarded(turn, cut)[..turn.takes]
            && c.recorded == c.sent + Forwarded(turn, cut)[turn.takes..])
      && (c.ending.Returned? && !Overflows(c.ending) ==>
            && c.buffer[c.position..] == Missed(turn, c.ending)
            && (c.position == |c.buffer| <==> Missed(turn, c.ending) == []))
      && (Overflows(c.ending) ==> |c.buffer| - |Missed(turn, c.ending)| - rules.start > rules.maxOutput)
      && (c.ending.Returned? && c.ending.reason.InputLimit? ==>
            |Typed(turns[..k], cut)| + |Forwarded(turn, cut)| > rules.maxInput)
  {
    hide Relayed, Pass, Forwarded, Typed, SendRaises, WithinLimits, ConsoleProjection.Bytes;
    RelayedLaws(rules, buffer, turns);
    var before := Relayed(rules, buffer, turns[..k]);
    RunningTyped(rules, buffer, turns[..k]);
    RelayedLaws(rules, buffer, turns[..k]);
    OnePass(rules, before, turns[k]);
  }

  // ----- two runs in which something is left over -----

  const QUIET := Turn([], true, false, [], 0, [], [])

  /** The last words of a dying guest, put out after the last look, are never recorded: nothing
      bounds how much is left over. */
  lemma LastWordsLost(rules: Rules, buffer: seq<Octet>, words: seq<Octet>)
    requires rules.start == |buffer| && words != []
    ensures var c := Relayed(rules, buffer, [QUIET.(alive := false, unseen := words)]);
      c.ending == Returned(TerminalSession.ProcessExit, false) && c.position < |c.buffer|
        && c.buffer[c.position..] == words
  {
    OneTurn(rules, buffer, QUIET.(alive := false, unseen := words));
  }

  lemma OneTurn(rules: Rules, buffer: seq<Octet>, turn: Turn)
    requires rules.start <= |buffer|
    ensures Relayed(rules, buffer, [turn]) ==
      Pass(rules, Course(Running, [], [], [], buffer, rules.start, []), turn)
  {
    assert [turn][..0] == [];
  }

  /** A key typed to a guest that has just stopped is in the record, and was never sent. */
  lemma RefusedKeyRecorded(rules: Rules, buffer: seq<Octet>)
    requires rules.start == |buffer| && rules.maxInput >= 1
    ensures var c := Relayed(rules, buffer, [QUIET.(readable := true, incoming := [65])]);
      c.ending == Raised && c.recorded == [65] && c.sent == []
  {
    var turn := QUIET.(readable := true, incoming := [65]);
    OneTurn(rules, buffer, turn);
    KeyForwarded(turn, rules.cutEnabled);
    hide Forwarded;
  }

  lemma KeyForwarded(turn: Turn, cutEnabled: bool)
    requires turn.incoming == [65]
    ensures Forwarded(turn, cutEnabled) == [65]
  {
    var data := turn.incoming;
    assert data[1..] == [] && Teletype.Taken(data, cutEnabled) == 1 + Teletype.Taken(data[1..], cutEnabled) == 1;
    assert data[..1] == data && data[..0] == [];
    assert Teletype.Keys(data) == Teletype.Keys([]) + [65];
  }
}
