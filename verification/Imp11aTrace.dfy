/**
 The IMP11-A input-DMA trace of ncc/imp11a_journey.py, with its lines already cut into
 fields: one start record, one record a stored word, one completion with the count.
 */
module Imp11aTrace {
  import opened Wrappers
  import Octets

  datatype Record =
    | Start(tick: nat, sequence: nat)
    | Dma(tick: nat, sequence: nat, index: nat, address: nat, wire: nat, guest: nat)
    | Complete(tick: nat, sequence: nat, count: nat)
    | Unreadable

  datatype InputWord = InputWord(index: nat, address: nat, wire: nat, guest: nat, storeTick: nat)

  datatype InputMessage = InputMessage(sequence: nat, startTick: nat, completeTick: nat, words: seq<InputWord>)

  datatype Pending = Pending(sequence: nat, startTick: nat, words: seq<InputWord>)

  datatype Error =
    | Interrupted
    | NotPositive
    | SequenceGap
    | TickBackward
    | NoPendingMessage
    | IdentityChanged
    | IndexGap
    | BadAddress
    | NotSixteenBits
    | GuestDisagrees
    | WrongCount
    | Malformed
    | Incomplete

  const LAST_ADDRESS := 0x3FFFE   // octal 777776
  const LAST_WORD := 0xFFFF       // octal 177777

  /** A network word as the PDP-11 stores it. */
  function MemoryWord(wire: nat): nat { (wire * 0x100) % 0x1_0000 + wire / 0x100 }

  /** Storing swaps the two octets, so the stored word determines the network one. */
  lemma MemoryWordInverts(wire: nat)
    requires wire <= LAST_WORD
    ensures MemoryWord(wire) <= LAST_WORD && MemoryWord(MemoryWord(wire)) == wire
  {
    Swapped(wire / 0x100, wire % 0x100);
    Swapped(wire % 0x100, wire / 0x100);
  }

  lemma Swapped(high: nat, low: nat)
    requires high < 0x100 && low < 0x100
    ensures MemoryWord(high * 0x100 + low) == low * 0x100 + high
  {
    var wire := high * 0x100 + low;
    Octets.Quotient(wire * 0x100, 0x1_0000, high, low * 0x100);
    Octets.Quotient(wire, 0x100, high, low);
  }

  datatype State = State(messages: seq<InputMessage>, pending: Option<Pending>, lastSequence: Option<nat>,
                         lastTick: Option<nat>)

  const START := State([], None, None, None)

  predicate Forward(last: Option<nat>, tick: nat) { last.None? || last.value <= tick }

  function OnStart(state: State, record: Record): Result<State, Error>
    requires record.Start?
  {
    if state.pending.Some? then Err(Interrupted)
    else if record.sequence == 0 then Err(NotPositive)
    else if state.lastSequence.Some? && record.sequence != state.lastSequence.value + 1 then Err(SequenceGap)
    else if !Forward(state.lastTick, record.tick) then Err(TickBackward)
    else Ok(state.(pending := Some(Pending(record.sequence, record.tick, [])),
                   lastSequence := Some(record.sequence), lastTick := Some(record.tick)))
  }

  function OnDma(state: State, record: Record): Result<State, Error>
    requires record.Dma?
  {
    if state.pending.None? then Err(NoPendingMessage)
    else
      var pending := state.pending.value;
      if record.sequence != pending.sequence then Err(IdentityChanged)
      else if record.index != |pending.words| then Err(IndexGap)
      else if record.address > LAST_ADDRESS || record.address % 2 != 0 then Err(BadAddress)
      else if record.wire > LAST_WORD || record.guest > LAST_WORD then Err(NotSixteenBits)
      else if record.guest != MemoryWord(record.wire) then Err(GuestDisagrees)
      else if !Forward(state.lastTick, record.tick) then Err(TickBackward)
      else
        var word := InputWord(record.index, record.address, record.wire, record.guest, record.tick);
        Ok(state.(pending := Some(pending.(words := pending.words + [word])), lastTick := Some(record.tick)))
  }

  function OnComplete(state: State, record: Record): Result<State, Error>
    requires record.Complete?
  {
    if state.pending.None? then Err(NoPendingMessage)
    else
      var pending := state.pending.value;
      if record.sequence != pending.sequence then Err(IdentityChanged)
      else if record.count == 0 || record.count != |pending.words| then Err(WrongCount)
      else if !Forward(state.lastTick, record.tick) then Err(TickBackward)
      else
        var message := InputMessage(record.sequence, pending.startTick, record.tick, pending.words);
        Ok(state.(messages := state.messages + [message], pending := None, lastTick := Some(record.tick)))
  }

  function Step(state: State, record: Record): Result<State, Error> {
    match record
    case Start(_, _) => OnStart(state, record)
    case Dma(_, _, _, _, _, _) => OnDma(state, record)
    case Complete(_, _, _) => OnComplete(state, record)
    case Unreadable => Err(Malformed)
  }

  function Run(records: seq<Record>): Result<State, Error> {
    if records == [] then Ok(START)
    else match Run(records[..|records| - 1])
      case Err(e) => Err(e)
      case Ok(state) => Step(state, records[|records| - 1])
  }

  function Parse(records: seq<Record>): Result<seq<InputMessage>, Error> {
    match Run(records)
    case Err(e) => Err(e)
    case Ok(state) => if state.pending.Some? then Err(Incomplete) else Ok(state.messages)
  }

  lemma RunAppend(records: seq<Record>, record: Record)
    ensures Run(records + [record]) ==
      match Run(records) case Err(e) => Err(e) case Ok(state) => Step(state, record)
  {
    assert (records + [record])[..|records|] == records;
  }

  lemma {:induction false} FirstError(records: seq<Record>, k: nat)
    requires k <= |records| && Run(records[..k]).Err?
    ensures Run(records) == Run(records[..k])
  {
    if k < |records| {
      var rest := records[..|records| - 1];
      assert rest[..k] == records[..k];
      FirstError(rest, k);
    } else {
      assert records[..k] == records;
    }
  }

  method ParseImp11aTrace(records: seq<Record>) returns (result: Result<seq<InputMessage>, Error>)
    ensures result == Parse(records)
  {
    var messages, pending, lastSequence, lastTick := [], None, None, None;
    for i := 0 to |records|
      invariant Run(records[..i]) == Ok(State(messages, pending, lastSequence, lastTick))
    {
      var record := records[i];
      assert records[..i + 1] == records[..i] + [record];
      RunAppend(records[..i], record);
      var error := Refusal(State(messages, pending, lastSequence, lastTick), record);
      if error.Some? {
        FirstError(records, i + 1);
        return Err(error.value);
      }
      lastTick := Some(record.tick);
      match record {
        case Start(tick, sequence) =>
          pending, lastSequence := Some(Pending(sequence, tick, [])), Some(sequence);
        case Dma(tick, _, index, address, wire, guest) =>
          var word := InputWord(index, address, wire, guest, tick);
          pending := Some(pending.value.(words := pending.value.words + [word]));
        case Complete(tick, sequence, _) =>
          messages := messages + [InputMessage(sequence, pending.value.startTick, tick, pending.value.words)];
          pending := None;
      }
    }
    assert records[..|records|] == records;
    return if pending.Some? then Err(Incomplete) else Ok(messages);
  }

  /** The checks made on a record before it changes anything. */
  method Refusal(state: State, record: Record) returns (error: Option<Error>)
    ensures error.Some? <==> Step(state, record).Err?
    ensures error.Some? ==> error.value == Step(state, record).error
    ensures error.None? ==> !record.Unreadable? && (record.Start? <==> state.pending.None?)
  {
    match record {
      case Unreadable => return Some(Malformed);
      case Start(tick, sequence) =>
        if state.pending.Some? { return Some(Interrupted); }
        if sequence == 0 { return Some(NotPositive); }
        if state.lastSequence.Some? && sequence != state.lastSequence.value + 1 { return Some(SequenceGap); }
      case Dma(tick, sequence, index, address, wire, guest) =>
        if state.pending.None? { return Some(NoPendingMessage); }
        if sequence != state.pending.value.sequence { return Some(IdentityChanged); }
        if index != |state.pending.value.words| { return Some(IndexGap); }
        if address > LAST_ADDRESS || address % 2 != 0 { return Some(BadAddress); }
        if wire > LAST_WORD || guest > LAST_WORD { return Some(NotSixteenBits); }
        if guest != MemoryWord(wire) { return Some(GuestDisagrees); }
      case Complete(tick, sequence, count) =>
        if state.pending.None? { return Some(NoPendingMessage); }
        if sequence != state.pending.value.sequence { return Some(IdentityChanged); }
        if count == 0 || count != |state.pending.value.words| { return Some(WrongCount); }
    }
    if state.lastTick.Some? && record.tick < state.lastTick.value { return Some(TickBackward); }
    return None;
  }

  // ----- printing -----

  function DmaOf(sequence: nat, word: InputWord): Record {
    Dma(word.storeTick, sequence, word.index, word.address, word.wire, word.guest)
  }

  function Stores(sequence: nat, words: seq<InputWord>): (records: seq<Record>)
    ensures |records| == |words|
    ensures forall i :: 0 <= i < |words| ==> records[i] == DmaOf(sequence, words[i])
  {
    seq(|words|, i requires 0 <= i < |words| => DmaOf(sequence, words[i]))
  }

  function Print(message: InputMessage): seq<Record> {
    [Start(message.startTick, message.sequence)] + Stores(message.sequence, message.words)
    + [Complete(message.completeTick, message.sequence, |message.words|)]
  }

  function PrintAll(messages: seq<InputMessage>): seq<Record> {
    if messages == [] then [] else PrintAll(messages[..|messages| - 1]) + Print(messages[|messages| - 1])
  }

  predicate WordsOk(words: seq<InputWord>) {
    forall i :: 0 <= i < |words| ==>
      && words[i].index == i && words[i].address <= LAST_ADDRESS && words[i].address % 2 == 0
      && words[i].wire <= LAST_WORD && words[i].guest == MemoryWord(words[i].wire)
  }

  predicate Proven(message: InputMessage) { message.sequence > 0 && message.words != [] && WordsOk(message.words) }

  predicate Contiguous(messages: seq<InputMessage>) {
    forall i :: 0 < i < |messages| ==> messages[i].sequence == messages[i - 1].sequence + 1
  }

  function Tick(record: Record): nat { if record.Unreadable? then 0 else record.tick }

  predicate Ordered(records: seq<Record>) {
    forall i, j :: 0 <= i < j < |records| ==> Tick(records[i]) <= Tick(records[j])
  }

  predicate Faithful(messages: seq<InputMessage>, records: seq<Record>) {
    && PrintAll(messages) == records && Ordered(records) && Contiguous(messages)
    && forall message :: message in messages ==> Proven(message)
  }

  // ----- accepted records are a print -----

  function PrintPending(pending: Option<Pending>): seq<Record> {
    match pending
    case None => []
    case Some(p) => [Start(p.startTick, p.sequence)] + Stores(p.sequence, p.words)
  }

  function LastTick(records: seq<Record>): Option<nat> {
    if records == [] then None else Some(Tick(records[|records| - 1]))
  }

  predicate Reached(records: seq<Record>, state: State) {
    && records == PrintAll(state.messages) + PrintPending(state.pending)
    && Ordered(records) && state.lastTick == LastTick(records)
    && (forall message :: message in state.messages ==> Proven(message))
    && (state.pending.Some? ==>
          var p := state.pending.value;
          WordsOk(p.words) && p.sequence > 0 && state.lastSequence == Some(p.sequence)
          && (state.messages != [] ==> p.sequence == state.messages[|state.messages| - 1].sequence + 1))
    && Contiguous(state.messages)
    && (state.pending.None? ==>
          state.lastSequence ==
          if state.messages == [] then None else Some(state.messages[|state.messages| - 1].sequence))
  }

  lemma OrderedSnoc(records: seq<Record>, record: Record)
    requires Ordered(records) && Forward(LastTick(records), Tick(record))
    ensures Ordered(records + [record])
  {
    var more := records + [record];
    forall i, j | 0 <= i < j < |more| ensures Tick(more[i]) <= Tick(more[j]) {
      if j == |records| && i < |records| - 1 {
        assert Tick(records[i]) <= Tick(records[|records| - 1]);
      }
    }
  }

  lemma ReachedStep(records: seq<Record>, state: State, record: Record)
    requires Reached(records, state) && Step(state, record).Ok?
    ensures Reached(records + [record], Step(state, record).value)
  {
    if record.Complete? {
      ReachedComplete(records, state, record);
    } else if record.Dma? {
      ReachedDma(records, state, record);
    } else {
      ReachedStart(records, state, record);
    }
  }

  lemma ReachedStart(records: seq<Record>, state: State, record: Record)
    requires Reached(records, state) && Step(state, record).Ok? && record.Start?
    ensures Reached(records + [record], Step(state, record).value)
  {
    hide Ordered, MemoryWord, Print, Proven;
    OrderedSnoc(records, record);
    assert PrintPending(Step(state, record).value.pending) == [record];
  }

  lemma ReachedDma(records: seq<Record>, state: State, record: Record)
    requires Reached(records, state) && Step(state, record).Ok? && record.Dma?
    ensures Reached(records + [record], Step(state, record).value)
  {
    hide Ordered, MemoryWord, Print, Proven, PrintAll, Contiguous, WordsOk, PrintPending;
    OrderedSnoc(records, record);
    StoreGrows(state.pending.value, record);
  }

  /** One more store, in the words collected and in their print. */
  lemma StoreGrows(p: Pending, record: Record)
    requires WordsOk(p.words) && record.Dma? && record.sequence == p.sequence && record.index == |p.words|
    requires record.address <= LAST_ADDRESS && record.address % 2 == 0 && record.wire <= LAST_WORD
    requires record.guest == MemoryWord(record.wire)
    ensures var grown := p.words + [InputWord(record.index, record.address, record.wire, record.guest, record.tick)];
      WordsOk(grown) && PrintPending(Some(p.(words := grown))) == PrintPending(Some(p)) + [record]
  {
    hide MemoryWord;
    var grown := p.words + [InputWord(record.index, record.address, record.wire, record.guest, record.tick)];
    assert Stores(p.sequence, grown) == Stores(p.sequence, p.words) + [record];
  }

  lemma ReachedComplete(records: seq<Record>, state: State, record: Record)
    requires Reached(records, state) && Step(state, record).Ok? && record.Complete?
    ensures Reached(records + [record], Step(state, record).value)
  {
    hide Ordered, MemoryWord, WordsOk;
    var next := Step(state, record).value;
    OrderedSnoc(records, record);
    var message := next.messages[|state.messages|];
    assert next.messages[..|next.messages| - 1] == state.messages;
    assert Print(message) == PrintPending(state.pending) + [record];
    hide Print, PrintPending, Step, Proven, Contiguous, PrintAll;
    CompleteState(records, state, record, message);
  }

  /** The stores and the completion are the print of the message they prove. */
  lemma CompleteState(records: seq<Record>, state: State, record: Record, message: InputMessage)
    requires Reached(records, state) && Step(state, record).Ok? && record.Complete?
    requires Step(state, record).value.messages == state.messages + [message]
    requires Print(message) == PrintPending(state.pending) + [record] && Ordered(records + [record])
    ensures Reached(records + [record], Step(state, record).value)
  {
    hide Ordered, MemoryWord, WordsOk, Print;
    var next := Step(state, record).value;
    assert next.messages[..|next.messages| - 1] == state.messages;
    assert PrintAll(next.messages) == PrintAll(state.messages) + Print(message);
  }

  lemma {:induction false} RunReaches(records: seq<Record>)
    ensures Run(records).Ok? ==> Reached(records, Run(records).value)
  {
    hide Reached, Step;
    if records == [] {
      StartReached();
    } else {
      var (rest, last) := (records[..|records| - 1], records[|records| - 1]);
      RunReaches(rest);
      assert rest + [last] == records;
      if Run(records).Ok? {
        ReachedStep(rest, Run(rest).value, last);
      }
    }
  }

  lemma StartReached()
    ensures Reached([], START)
  {
  }

  // ----- every faithful print is accepted -----

  lemma OrderedPrefix(records: seq<Record>, k: nat)
    requires Ordered(records) && k < |records|
    ensures Ordered(records[..k]) && Forward(LastTick(records[..k]), Tick(records[k]))
  {
    if k > 0 {
      assert Tick(records[k - 1]) <= Tick(records[k]);
    }
  }

  function Underway(state: State, message: InputMessage, k: nat, tick: Option<nat>): State
    requires k <= |message.words|
  {
    State(state.messages, Some(Pending(message.sequence, message.startTick, message.words[..k])),
          Some(message.sequence), tick)
  }

  lemma {:induction false} RunStores(base: seq<Record>, state: State, message: InputMessage, k: nat)
    requires Run(base) == Ok(state) && state.pending.None? && state.lastTick == LastTick(base)
    requires state.lastSequence.None? || message.sequence == state.lastSequence.value + 1
    requires Proven(message) && k <= |message.words| && Ordered(base + Print(message))
    ensures var records := (base + Print(message))[..|base| + 1 + k];
      Run(records) == Ok(Underway(state, message, k, LastTick(records)))
  {
    hide Ordered, Run, Print, Step, Proven, Underway;
    var whole := base + Print(message);
    PrintedAt(base, message, k);
    var (before, record) := (whole[..|base| + k], whole[|base| + k]);
    OrderedPrefix(whole, |base| + k);
    RunAppend(before, record);
    assert whole[..|base| + 1 + k] == before + [record];
    if k == 0 {
      StartStep(state, message);
    } else {
      RunStores(base, state, message, k - 1);
      StoreStep(state, message, k - 1, LastTick(before));
    }
  }

  /** What is printed `k` records into a message, and what was printed before its start. */
  lemma PrintedAt(base: seq<Record>, message: InputMessage, k: nat)
    requires k <= |message.words|
    ensures |base + Print(message)| == |base| + |message.words| + 2
    ensures (base + Print(message))[|base| + k] ==
      if k == 0 then Start(message.startTick, message.sequence) else DmaOf(message.sequence, message.words[k - 1])
    ensures (base + Print(message))[..|base|] == base
  {
    assert (base + Print(message))[|base| + k] == Print(message)[k];
  }

  lemma StartStep(state: State, message: InputMessage)
    requires state.pending.None? && Proven(message) && Forward(state.lastTick, message.startTick)
    requires state.lastSequence.None? || message.sequence == state.lastSequence.value + 1
    ensures Step(state, Start(message.startTick, message.sequence)) ==
      Ok(Underway(state, message, 0, Some(message.startTick)))
  {
    assert message.words[..0] == [];
  }

  lemma StoreStep(state: State, message: InputMessage, k: nat, tick: Option<nat>)
    requires Proven(message) && k < |message.words| && Forward(tick, Tick(DmaOf(message.sequence, message.words[k])))
    ensures var record := DmaOf(message.sequence, message.words[k]);
      Step(Underway(state, message, k, tick), record) == Ok(Underway(state, message, k + 1, Some(Tick(record))))
  {
    assert message.words[..k + 1] == message.words[..k] + [message.words[k]];
    StoreFits(message, k);
  }

  lemma StoreFits(message: InputMessage, k: nat)
    requires Proven(message) && k < |message.words|
    ensures message.words[k].guest <= LAST_WORD
  {
    MemoryWordInverts(message.words[k].wire);
  }

  lemma RunMessage(base: seq<Record>, state: State, message: InputMessage)
    requires Run(base) == Ok(state) && state.pending.None? && state.lastTick == LastTick(base)
    requires state.lastSequence.None? || message.sequence == state.lastSequence.value + 1
    requires Proven(message) && Ordered(base + Print(message))
    ensures Run(base + Print(message)) ==
      Ok(State(state.messages + [message], None, Some(message.sequence), LastTick(base + Print(message))))
  {
    hide Ordered, Run;
    var whole := base + Print(message);
    var n := |message.words|;
    RunStores(base, state, message, n);
    assert message.words[..n] == message.words;
    OrderedPrefix(whole, |base| + 1 + n);
    RunAppend(whole[..|base| + 1 + n], whole[|base| + 1 + n]);
    assert whole == whole[..|base| + 1 + n] + [whole[|base| + 1 + n]];
  }

  lemma {:induction false} FaithfulRuns(messages: seq<InputMessage>, records: seq<Record>)
    requires Faithful(messages, records)
    ensures Run(records) == Ok(State(messages, None,
      if messages == [] then None else Some(messages[|messages| - 1].sequence), LastTick(records)))
  {
    hide Proven, Step;
    if messages != [] {
      var (rest, last) := (messages[..|messages| - 1], messages[|messages| - 1]);
      var base := PrintAll(rest);
      assert base == records[..|base|];
      FaithfulRuns(rest, base);
      assert rest != [] ==> messages[|rest|].sequence == messages[|rest| - 1].sequence + 1;
      RunMessage(base, Run(base).value, last);
      assert rest + [last] == messages;
    }
  }

  /** Parsing and printing are inverse: exactly the prints of proven messages are accepted,
      and they give back those messages. */
  lemma AcceptedExactly(records: seq<Record>, messages: seq<InputMessage>)
    ensures Parse(records) == Ok(messages) <==> Faithful(messages, records)
  {
    hide Proven, Step;
    if Faithful(messages, records) {
      FaithfulRuns(messages, records);
    }
    if Parse(records) == Ok(messages) {
      RunReaches(records);
      assert PrintAll(messages) + [] == PrintAll(messages);
    }
  }
}
