/**
 The relay loop of ncc/historical_terminal.py itself, with the recorder, the filter and the
 renderer it drives, against the course of one run of the world.
 */
module TerminalRelay {
  import opened Octets
  import opened RelayCourse
  import ConsoleProjection
  import TerminalSession
  import Teletype

  const READ_SIZE := 4096

  datatype Outcome = Outcome(
    ending: Ending,
    sent: seq<Octet>,      // every byte the guest has taken
    buffer: seq<Octet>,    // every byte the guest has put out
    position: nat,
    screen: seq<Octet>)    // guest text on the operator's screen, notices aside

  ghost predicate Reads(turns: seq<Turn>) { forall turn :: turn in turns ==> |turn.incoming| <= READ_SIZE }

  class Relay {
    const recorder: TerminalSession.TerminalSessionRecorder
    const renderer: Teletype.SafeTeletypeRenderer
    const projection: ConsoleProjection.HistoricalConsoleProjection
    const rules: Rules
    var buffer: seq<Octet>
    var sent: seq<Octet>
    var position: nat
    var inputBytes: nat
    var outputBytes: nat
    var screen: seq<Octet>

    /** Where the run stands. */
    ghost function Now(): Course
      reads this, recorder, projection
      requires recorder.Valid()
    {
      Course(Running, recorder.Recorded().input, sent, recorder.Recorded().controls, buffer, position,
             projection.history)
    }

    /** The record is open, keeps the relay's limits, and holds the output up to the position. */
    ghost predicate Sound()
      reads this, recorder
    {
      && recorder.Valid() && !recorder.closed && !recorder.terminal
      && rules.maxInput == recorder.limits.maxInput && rules.maxOutput == recorder.limits.maxOutput
      && rules.start <= position <= |buffer|
      && recorder.Recorded().output == buffer[rules.start..position]
      && outputBytes == position - rules.start <= rules.maxOutput
    }

    /** ... and the operator bytes that were sent, and no others. */
    ghost predicate Balanced()
      reads this, recorder
    {
      Sound() && recorder.Recorded().input == sent && inputBytes == |sent| <= rules.maxInput
    }

    ghost predicate Pictured()
      reads this, renderer, projection
    {
      && renderer.Valid() && projection.Valid()
      && renderer.output == ConsoleProjection.Shown(projection.history)
      && screen == Teletype.Picture(renderer.output)
    }

    ghost predicate Valid()
      reads this, recorder, renderer, projection
    {
      Balanced() && Pictured()
    }

    constructor (recorder: TerminalSession.TerminalSessionRecorder, buffer: seq<Octet>, rules: Rules)
      requires recorder.Valid() && !recorder.closed && recorder.Recorded() == TerminalSession.EMPTY
      requires rules.maxInput == recorder.limits.maxInput && rules.maxOutput == recorder.limits.maxOutput
      requires rules.start <= |buffer|
      ensures Valid() && this.recorder == recorder && this.rules == rules
      ensures Now() == Course(Running, [], [], [], buffer, rules.start, [])
      ensures fresh(renderer) && fresh(projection)
    {
      this.recorder, this.buffer, this.rules := recorder, buffer, rules;
      renderer := new Teletype.SafeTeletypeRenderer();
      projection := new ConsoleProjection.HistoricalConsoleProjection();
      sent, position, inputBytes, outputBytes, screen := [], rules.start, 0, 0, [];
      new;
      ConsoleProjection.EmptyScreen();
    }

    /** Shows and records what the guest has put out, unless that would pass the limit. */
    method RelayOutput() returns (overLimit: bool)
      requires Valid()
      modifies this, recorder, renderer, projection
      ensures Valid() && overLimit == Over(rules, old(Now()))
      ensures Now() == if overLimit then old(Now()) else Looked(old(Now()))
    {
      hide ConsoleProjection.Shown, Teletype.Picture, TerminalSession.ReadLog;
      overLimit := false;
      var available := buffer[position..];
      if available == [] {
        assert projection.history + ConsoleProjection.Atoms(available) == projection.history;
        return;
      }
      if outputBytes + |available| > rules.maxOutput {
        overLimit := true;
        return;
      }
      var recorded := recorder.Bytes(TerminalSession.Pdp11ToOperator, available, TerminalSession.Stamp(0));
      assert recorded.Ok?;
      assert buffer[rules.start..] == buffer[rules.start..position] + available;
      outputBytes, position := outputBytes + |available|, position + |available|;
      Show(available);
    }

    /** Puts recorded guest output through the filter and the renderer. */
    method Show(available: seq<Octet>)
      requires Balanced() && Pictured()
      modifies this`screen, renderer, projection
      ensures Valid() && projection.history == old(projection.history) + ConsoleProjection.Atoms(available)
    {
      hide ConsoleProjection.Shown, Teletype.Picture, TerminalSession.ReadLog;
      var projected := projection.Project(available);
      var rendered := renderer.Render(projected);
      screen := screen + rendered;
    }

    method FlushProjection()
      requires Valid()
      modifies this`screen, renderer, projection
      ensures Valid() && Now() == old(Now()).(history := old(Now()).history + [ConsoleProjection.Flush])
    {
      hide ConsoleProjection.Shown, Teletype.Picture, TerminalSession.ReadLog;
      var pending := projection.FlushPending(false);
      var rendered := renderer.Render(pending);
      screen := screen + rendered;
    }

    /** Closes the screen: all guest text relayed so far is on it, filtered and rendered. */
    method FinishProjection()
      requires Valid()
      modifies this`screen, renderer, projection
      ensures Balanced() && Now() == old(Now())
      ensures screen == Teletype.Picture(ConsoleProjection.FinallyShown(projection.history))
    {
      hide ConsoleProjection.Shown, ConsoleProjection.FinallyShown, Teletype.Picture, TerminalSession.ReadLog;
      var pending := projection.FlushPending(true);
      var rendered := renderer.Render(pending);
      screen := screen + rendered;
    }

    /** Refused operator bytes are counted in the record; they send nothing. */
    method NoteRefusals(prepared: Teletype.Prepared)
      requires Valid() && prepared.blockedWru <= READ_SIZE && prepared.rejectedHighBit <= READ_SIZE
      modifies recorder
      ensures Valid()
      ensures Now() == old(Now()).(controls := old(Now()).controls
        + (if prepared.blockedWru > 0 then [(TerminalSession.BlockedSimulatorWru, prepared.blockedWru)] else [])
        + (if prepared.rejectedHighBit > 0 then [(TerminalSession.RejectedNonSevenBit, prepared.rejectedHighBit)]
           else []))
    {
      hide ConsoleProjection.Shown, Teletype.Picture, TerminalSession.ReadLog;
      if prepared.blockedWru > 0 {
        var noted := recorder.Control(TerminalSession.BlockedSimulatorWru, prepared.blockedWru,
                                      TerminalSession.Stamp(0));
        assert noted.Ok?;
      }
      if prepared.rejectedHighBit > 0 {
        var noted := recorder.Control(TerminalSession.RejectedNonSevenBit, prepared.rejectedHighBit,
                                      TerminalSession.Stamp(0));
        assert noted.Ok?;
      }
    }

    /** The guest puts out more. */
    method Grow(output: seq<Octet>)
      requires Balanced()
      modifies this`buffer
      ensures Balanced() && (old(Pictured()) ==> Pictured()) && Now() == Grown(old(Now()), output)
    {
      hide TerminalSession.ReadLog;
      buffer := buffer + output;
      assert buffer[rules.start..position] == old(buffer)[rules.start..position];
    }

    /** What may reach the guest is recorded and then sent; the guest may stop before it has
        taken all of it, and then sending raises. */
    method Send(data: seq<Octet>, takes: nat) returns (raised: bool)
      requires Valid() && data != [] && inputBytes + |data| <= rules.maxInput
      modifies this`sent, this`inputBytes, recorder
      ensures Sound() && raised == (takes < |data|) && (!raised ==> Valid()) && Pictured()
      ensures Now() == old(Now()).(recorded := old(Now()).recorded + data,
                                   sent := old(Now()).sent + if raised then data[..takes] else data)
    {
      hide ConsoleProjection.Shown, Teletype.Picture, TerminalSession.ReadLog;
      var recorded := recorder.Bytes(TerminalSession.OperatorToPdp11, data, TerminalSession.Stamp(0));
      assert recorded.Ok?;
      if takes < |data| {
        sent := sent + data[..takes];
        return true;
      }
      sent := sent + data;
      inputBytes := inputBytes + |data|;
      return false;
    }

    /** Sorts out what was read and records what is refused, while the guest goes on. */
    method Prepare(turn: Turn) returns (prepared: Teletype.Prepared)
      requires Valid() && |turn.incoming| <= READ_SIZE
      modifies this`buffer, recorder
      ensures Valid() && prepared.forwarded == Forwarded(turn, rules.cutEnabled)
      ensures prepared.exitRequested == AsksToLeave(turn, rules.cutEnabled)
      ensures Now() == Grown(old(Now()).(controls := old(Now()).controls + Refusals(turn.incoming, rules.cutEnabled)),
                             turn.unseen)
    {
      hide ConsoleProjection.Shown, Teletype.Picture, Teletype.Keys, Teletype.Count, TerminalSession.ReadLog;
      prepared := Teletype.PrepareTerminalInput(turn.incoming, rules.cutEnabled);
      NoteRefusals(prepared);
      Grow(turn.unseen);
    }

    /** The operator leaves: a last look after the pause, and the screen is closed. */
    method Leave(turn: Turn) returns (ending: Ending)
      requires Valid()
      modifies this, recorder, renderer, projection
      ensures Sound() && Finishes(ending)
      ensures screen == Teletype.Picture(ConsoleProjection.FinallyShown(projection.history))
      ensures Now().(ending := ending) == Left(rules, old(Now()), turn)
    {
      hide ConsoleProjection.Shown, ConsoleProjection.FinallyShown, Teletype.Picture, TerminalSession.ReadLog, Over,
        Looked;
      var overLimit := RelayOutput();
      Grow(turn.afterwards);
      FinishProjection();
      return Returned(if overLimit then TerminalSession.OutputLimit else TerminalSession.OperatorExit, true);
    }

    /** The part of a pass that has read something. */
    method RelayInput(turn: Turn) returns (ending: Ending)
      requires Valid() && |turn.incoming| <= READ_SIZE
      modifies this, recorder, renderer, projection
      ensures Sound() && (ending.Running? ==> Valid())
      ensures Now().(ending := ending) == Typing(rules, old(Now()), turn)
      ensures screen == Teletype.Picture(Screened(ending, projection.history))
    {
      hide ConsoleProjection.Shown, ConsoleProjection.FinallyShown, Teletype.Picture, TerminalSession.ReadLog, Left,
        Forwarded, AsksToLeave, Refusals;
      var prepared := Prepare(turn);
      if prepared.forwarded != [] {
        if inputBytes + |prepared.forwarded| > rules.maxInput {
          return Returned(TerminalSession.InputLimit, false);
        }
        var raised := Send(prepared.forwarded, turn.takes);
        if raised {
          return Raised;
        }
      } else {
        assert Now().recorded + prepared.forwarded == Now().recorded && sent + prepared.forwarded == sent;
      }
      if prepared.exitRequested {
        ending := Leave(turn);
        return ending;
      }
      return Running;
    }

    /** One pass of the loop. */
    method Serve(turn: Turn) returns (ending: Ending)
      requires Valid() && |turn.incoming| <= READ_SIZE
      modifies this, recorder, renderer, projection
      ensures Sound() && (ending.Running? ==> Valid())
      ensures Now().(ending := ending) == Pass(rules, old(Now()), turn)
      ensures screen == Teletype.Picture(Screened(ending, projection.history))
    {
      hide ConsoleProjection.Shown, ConsoleProjection.FinallyShown, Teletype.Picture, TerminalSession.ReadLog, Typing;
      Grow(turn.grown);
      var overLimit := RelayOutput();
      if overLimit {
        Grow(turn.unseen);
        return Returned(TerminalSession.OutputLimit, false);
      }
      if !turn.alive {
        FinishProjection();
        Grow(turn.unseen);
        return Returned(TerminalSession.ProcessExit, false);
      }
      if !turn.readable {
        FlushProjection();
        Grow(turn.unseen);
        return Running;
      }
      if turn.incoming == [] {
        FinishProjection();
        Grow(turn.unseen);
        return Returned(TerminalSession.InputEof, false);
      }
      ending := RelayInput(turn);
    }
  }

  /** The guest text on the screen. */
  function Screened(ending: Ending, history: seq<ConsoleProjection.Atom>): seq<Octet> {
    if Finishes(ending) then ConsoleProjection.FinallyShown(history) else ConsoleProjection.Shown(history)
  }

  /** The relay loop over one run of the world. Everything it leaves, in the record, with the
      guest and on the screen, is what the course of that run says; the recorder never refuses. */
  method RunCharacterTerminal(recorder: TerminalSession.TerminalSessionRecorder, buffer: seq<Octet>, start: nat,
                              turns: seq<Turn>, cutEnabled: bool)
    returns (outcome: Outcome)
    requires recorder.Valid() && !recorder.closed && recorder.Recorded() == TerminalSession.EMPTY
    requires start <= |buffer| && Reads(turns)
    modifies recorder
    ensures recorder.Valid() && !recorder.terminal
    ensures var rules := Rules(start, recorder.limits.maxInput, recorder.limits.maxOutput, cutEnabled);
      var (c, record) := (Relayed(rules, buffer, turns), recorder.Recorded());
      && (outcome.ending, outcome.sent, outcome.buffer, outcome.position) == (c.ending, c.sent, c.buffer, c.position)
      && (record.input, record.controls) == (c.recorded, c.controls)
      && record.output == c.buffer[start..c.position]
      && outcome.screen == Teletype.Picture(Screened(c.ending, c.history))
      && (Finishes(c.ending) && ConsoleProjection.Losses(c.history) == 0 ==>
            outcome.screen == Teletype.Picture(ConsoleProjection.Filtered(record.output)))
  {
    hide ConsoleProjection.Shown, ConsoleProjection.FinallyShown, ConsoleProjection.Bytes, ConsoleProjection.Losses;
    hide ConsoleProjection.Filtered, Teletype.Picture, TerminalSession.ReadLog, Pass;
    ghost var rules := Rules(start, recorder.limits.maxInput, recorder.limits.maxOutput, cutEnabled);
    var relay := new Relay(recorder, buffer,
                           Rules(start, recorder.limits.maxInput, recorder.limits.maxOutput, cutEnabled));
    var ending := Running;
    for i := 0 to |turns|
      invariant relay.Valid() && relay.recorder == recorder && relay.rules == rules && fresh(relay)
      invariant fresh(relay.renderer) && fresh(relay.projection)
      invariant relay.Now() == Relayed(rules, buffer, turns[..i])
      invariant relay.screen == Teletype.Picture(Screened(Running, relay.projection.history))
    {
      assert turns[..i + 1][..i] == turns[..i];
      ending := relay.Serve(turns[i]);
      if !ending.Running? {
        OverForGood(rules, buffer, turns, i + 1);
        FilteredScreen(rules, buffer, turns);
        return Outcome(ending, relay.sent, relay.buffer, relay.position, relay.screen);
      }
    }
    assert turns[..|turns|] == turns;
    return Outcome(Running, relay.sent, relay.buffer, relay.position, relay.screen);
  }

  /** What a finished screen shows, when no line loses its space. */
  lemma FilteredScreen(rules: Rules, buffer: seq<Octet>, turns: seq<Turn>)
    requires rules.start <= |buffer|
    ensures var c := Relayed(rules, buffer, turns);
      && rules.start <= c.position
      && (Finishes(c.ending) && ConsoleProjection.Losses(c.history) == 0 ==>
            Screened(c.ending, c.history) == ConsoleProjection.Filtered(c.buffer[rules.start..c.position]))
  {
    RelayedLaws(rules, buffer, turns);
    ConsoleProjection.FilterExactness(Relayed(rules, buffer, turns).history);
  }

  lemma {:induction false} OverForGood(rules: Rules, buffer: seq<Octet>, turns: seq<Turn>, k: nat)
    requires rules.start <= |buffer| && k <= |turns| && !Relayed(rules, buffer, turns[..k]).ending.Running?
    ensures Relayed(rules, buffer, turns) == Relayed(rules, buffer, turns[..k])
  {
    hide Pass;
    if k == |turns| {
      assert turns[..k] == turns;
    } else {
      assert turns[..|turns| - 1][..k] == turns[..k];
      OverForGood(rules, buffer, turns[..|turns| - 1], k);
    }
  }
}
