/**
 The KA10 input-assembly trace of ncc/ka10_imp_journey.py, with its lines already cut
 into fields.  A message is accepted only as one receive record followed by matched pairs
 of assembly and consumption, and its octets are put together from the valid high bits of
 36-bit words.
 */
module Ka10Trace {
  import opened Octets
  import opened Wrappers

  /** Twelve octal digits. */
  type Word36 = n: nat | n < 0x10_0000_0000

  datatype Record =
    | Receive(tick: nat, sequence: nat, bits: nat)
    | Assembly(tick: nat, sequence: nat, index: nat, messageBits: nat, start: nat, width: nat, valid: nat,
               last: bool, value: Word36)
    | Consume(tick: nat, sequence: nat, index: nat, width: nat, valid: nat, last: bool, value: Word36, pc: nat)
    | Unreadable

  datatype InputWord = InputWord(index: nat, start: nat, width: nat, valid: nat, last: bool, value: Word36,
                                 assemblyTick: nat, consumeTick: nat, pc: nat)

  datatype InputMessage = InputMessage(sequence: nat, receiveTick: nat, bits: nat, words: seq<InputWord>,
                                       content: seq<Octet>)

  datatype Assembled = Assembled(tick: nat, index: nat, start: nat, width: nat, valid: nat, last: bool, value: Word36)

  datatype Pending = Pending(sequence: nat, receiveTick: nat, bits: nat, words: seq<InputWord>,
                             assembly: Option<Assembled>)

  datatype Error =
    | Interrupted
    | NotWholeOctets
    | SequenceGap
    | TickBackward
    | NoPendingMessage
    | IdentityChanged
    | IndexGap
    | StartGap
    | BadWidth
    | BadValidBits
    | NoPendingAssembly
    | Mismatch
    | NotCovered
    | Malformed
    | Incomplete

  // ----- bits and octets -----

  function Widths(words: seq<InputWord>): nat {
    if words == [] then 0 else Widths(words[..|words| - 1]) + words[|words| - 1].width
  }

  /** The high `valid` bits of a word. */
  function Chunk(value: Word36, valid: nat): nat
    requires valid <= 36
  {
    Shift(value, 36 - valid)
  }

  function ValidBits(words: seq<InputWord>): nat {
    if words == [] then 0 else ValidBits(words[..|words| - 1]) + words[|words| - 1].valid
  }

  predicate Narrow(words: seq<InputWord>) { forall word :: word in words ==> word.valid <= 36 }

  function Value(words: seq<InputWord>): nat
    requires Narrow(words)
  {
    if words == [] then 0
    else var (rest, last) := (words[..|words| - 1], words[|words| - 1]);
      Value(rest) * Pow2(last.valid) + Chunk(last.value, last.valid)
  }

  method Reconstruct(bits: nat, words: seq<InputWord>) returns (result: Result<seq<Octet>, Error>)
    requires Narrow(words)
    ensures result == if ValidBits(words) == bits then Ok(FromNat(Value(words), bits / 8)) else Err(NotCovered)
  {
    var bitCount, value := 0, 0;
    for i := 0 to |words|
      invariant bitCount == ValidBits(words[..i]) && value == Value(words[..i])
    {
      var word := words[i];
      assert words[..i + 1][..i] == words[..i];
      if word.valid > 0 {
        value := value * Pow2(word.valid) + Chunk(word.value, word.valid);
        bitCount := bitCount + word.valid;
      } else {
        assert Pow2(0) == 1 && Pow2(36) == 0x10_0000_0000 by { Pow2Values(); }
      }
    }
    assert words[..|words|] == words;
    if bitCount != bits {
      return Err(NotCovered);
    }
    return Ok(FromNat(value, bits / 8));
  }

  lemma ChunkBound(value: Word36, valid: nat)
    requires valid <= 36
    ensures Chunk(value, valid) < Pow2(valid)
  {
    Pow2Values();
    Pow2Sum(36 - valid, valid);
    QuotientBound(value, Pow2(36 - valid), Pow2(valid));
  }

  lemma QuotientBound(a: nat, d: nat, e: nat)
    requires d > 0 && a < d * e
    ensures a / d < e
  {
    if a / d >= e {
      Times(a / d, e, d);
      if a / d > e { AtLeastOnce(a / d - e, d); }
    }
  }

  /** The collected value fits the octets it is written into. */
  lemma {:induction false} ValueBound(words: seq<InputWord>)
    requires Narrow(words)
    ensures Value(words) < Pow2(ValidBits(words))
  {
    if words != [] {
      var (rest, last) := (words[..|words| - 1], words[|words| - 1]);
      ValueBound(rest);
      ChunkBound(last.value, last.valid);
      Pow2Sum(ValidBits(rest), last.valid);
      Shifted(Value(rest), Pow2(ValidBits(rest)), Chunk(last.value, last.valid), Pow2(last.valid));
    }
  }

  lemma Shifted(v: nat, bound: nat, chunk: nat, unit: nat)
    requires v < bound && chunk < unit
    ensures v * unit + chunk < bound * unit
  {
    Times(bound, v, unit);
    AtLeastOnce(bound - v, unit);
  }

  // ----- the parser, record by record -----

  datatype State = State(messages: seq<InputMessage>, pending: Option<Pending>, lastSequence: Option<nat>,
                         lastTick: Option<nat>)

  const START := State([], None, None, None)

  predicate Forward(last: Option<nat>, tick: nat) { last.None? || last.value <= tick }

  function Min(a: nat, b: nat): nat { if a <= b then a else b }

  /** The bits of an n-bit message that a word starting at `start` still carries. */
  function Carried(bits: nat, start: nat, width: nat): nat {
    Min(width, if start <= bits then bits - start else 0)
  }

  function OnReceive(state: State, record: Record): Result<State, Error>
    requires record.Receive?
  {
    if state.pending.Some? then Err(Interrupted)
    else if record.bits == 0 || record.bits % 8 != 0 then Err(NotWholeOctets)
    else if state.lastSequence.Some? && record.sequence != state.lastSequence.value + 1 then Err(SequenceGap)
    else if !Forward(state.lastTick, record.tick) then Err(TickBackward)
    else Ok(state.(pending := Some(Pending(record.sequence, record.tick, record.bits, [], None)),
                   lastSequence := Some(record.sequence), lastTick := Some(record.tick)))
  }

  function OnAssembly(state: State, record: Record): Result<State, Error>
    requires record.Assembly?
  {
    if state.pending.None? || state.pending.value.assembly.Some? then Err(NoPendingMessage)
    else
      var pending := state.pending.value;
      var (start, width) := (record.start, record.width);
      if record.sequence != pending.sequence || record.messageBits != pending.bits then Err(IdentityChanged)
      else if record.index != |pending.words| then Err(IndexGap)
      else if start != Widths(pending.words) then Err(StartGap)
      else if width !in {32, 36} || (width == 32 && record.value % 16 != 0) then Err(BadWidth)
      else if record.valid != Carried(pending.bits, start, width) || record.last != (start + width >= pending.bits)
        then Err(BadValidBits)
      else if !Forward(state.lastTick, record.tick) then Err(TickBackward)
      else
        var assembly := Assembled(record.tick, record.index, start, width, record.valid, record.last, record.value);
        Ok(state.(pending := Some(pending.(assembly := Some(assembly))), lastTick := Some(record.tick)))
  }

  function Paired(assembly: Assembled, record: Record): InputWord
    requires record.Consume?
  {
    InputWord(record.index, assembly.start, record.width, record.valid, record.last, record.value, assembly.tick,
              record.tick, record.pc)
  }

  function OnConsume(state: State, record: Record): Result<State, Error>
    requires record.Consume?
  {
    if state.pending.None? || state.pending.value.assembly.None? then Err(NoPendingAssembly)
    else
      var pending := state.pending.value;
      var assembly := pending.assembly.value;
      if record.sequence != pending.sequence || record.index != assembly.index || record.width != assembly.width
         || record.valid != assembly.valid || record.last != assembly.last || record.value != assembly.value
        then Err(Mismatch)
      else if !Forward(state.lastTick, record.tick) then Err(TickBackward)
      else
        var words := pending.words + [Paired(assembly, record)];
        if !record.last then
          Ok(state.(pending := Some(pending.(words := words, assembly := None)), lastTick := Some(record.tick)))
        else if !Narrow(words) || ValidBits(words) != pending.bits then Err(NotCovered)
        else Ok(state.(messages := state.messages + [Whole(pending.(words := words))], pending := None,
                       lastTick := Some(record.tick)))
  }

  function Whole(pending: Pending): InputMessage
    requires Narrow(pending.words)
  {
    InputMessage(pending.sequence, pending.receiveTick, pending.bits, pending.words,
                 FromNat(Value(pending.words), pending.bits / 8))
  }

  function Step(state: State, record: Record): Result<State, Error> {
    match record
    case Receive(_, _, _) => OnReceive(state, record)
    case Assembly(_, _, _, _, _, _, _, _, _) => OnAssembly(state, record)
    case Consume(_, _, _, _, _, _, _, _) => OnConsume(state, record)
    case Unreadable => Err(Malformed)
  }

  function Run(records: seq<Record>): Result<State, Error> {
    if records == [] then Ok(START)
    else match Run(records[..|records| - 1])
      case Err(e) => Err(e)
      case Ok(state) => Step(state, records[|records| - 1])
  }

  function Parse(records: seq<Record>): Result<seq<InputMessage>, Error> {
    match Run(records)
    case Err(e) => Err(e)
    case Ok(state) => if state.pending.Some? then Err(Incomplete) else Ok(state.messages)
  }

  lemma RunAppend(records: seq<Record>, record: Record)
    ensures Run(records + [record]) ==
      match Run(records) case Err(e) => Err(e) case Ok(state) => Step(state, record)
  {
    assert (records + [record])[..|records|] == records;
  }

  lemma {:induction false} FirstError(records: seq<Record>, k: nat)
    requires k <= |records| && Run(records[..k]).Err?
    ensures Run(records) == Run(records[..k])
  {
    if k < |records| {
      var rest := records[..|records| - 1];
      assert rest[..k] == records[..k];
      FirstError(rest, k);
    } else {
      assert records[..k] == records;
    }
  }

  // ----- what a pending message has been checked for -----

  predicate WordOk(words: seq<InputWord>, i: nat, bits: nat)
    requires i < |words|
  {
    var word := words[i];
    && word.index == i && word.start == Widths(words[..i])
    && word.width in {32, 36} && (word.width == 32 ==> word.value % 16 == 0)
    && word.valid == Carried(bits, word.start, word.width)
    && word.last == (word.start + word.width >= bits)
  }

  /** Every word is as the assembler must have made it. */
  predicate WordsOk(words: seq<InputWord>, bits: nat) { forall i :: 0 <= i < |words| ==> WordOk(words, i, bits) }

  predicate NoLast(words: seq<InputWord>) { forall i :: 0 <= i < |words| ==> !words[i].last }

  lemma WordsOkSnoc(words: seq<InputWord>, word: InputWord, bits: nat)
    ensures WordsOk(words + [word], bits) <==> WordsOk(words, bits) && WordOk(words + [word], |words|, bits)
  {
    var more := words + [word];
    forall i | 0 <= i < |words| ensures WordOk(more, i, bits) <==> WordOk(words, i, bits) {
      assert more[..i] == words[..i];
    }
    if WordsOk(more, bits) {
      assert WordOk(more, |words|, bits);
      forall i | 0 <= i < |words| ensures WordOk(words, i, bits) {
        assert WordOk(more, i, bits);
      }
    }
  }

  /** The valid bits of checked words are the message's first bits, as far as the words reach. */
  lemma {:induction false} Coverage(words: seq<InputWord>, bits: nat)
    requires WordsOk(words, bits)
    ensures Narrow(words) && ValidBits(words) == Min(Widths(words), bits)
  {
    if words != [] {
      var rest := words[..|words| - 1];
      assert rest + [words[|words| - 1]] == words;
      WordsOkSnoc(rest, words[|words| - 1], bits);
      Coverage(rest, bits);
      forall word | word in words ensures word.valid <= 36 {
        var i :| 0 <= i < |words| && words[i] == word;
        assert WordOk(words, i, bits);
      }
    }
  }

  // ----- the parser as a loop -----

  method ParseKa10ImpTrace(records: seq<Record>) returns (result: Result<seq<InputMessage>, Error>)
    ensures result == Parse(records)
  {
    hide Value, ValidBits;
    var messages, pending, lastSequence, lastTick := [], None, None, None;
    for i := 0 to |records|
      invariant Run(records[..i]) == Ok(State(messages, pending, lastSequence, lastTick))
    {
      var record := records[i];
      assert records[..i + 1] == records[..i] + [record];
      RunAppend(records[..i], record);
      var error := None;
      match record {
        case Receive(_, _, _) =>
          error, pending, lastSequence, lastTick := Received(messages, pending, lastSequence, lastTick, record);
        case Assembly(_, _, _, _, _, _, _, _, _) =>
          error, pending, lastTick := AssembledOne(messages, pending, lastSequence, lastTick, record);
        case Consume(_, _, _, _, _, _, _, _) =>
          error, messages, pending, lastTick := Consumed(messages, pending, lastSequence, lastTick, record);
        case Unreadable =>
          error := Some(Malformed);
      }
      if error.Some? {
        FirstError(records, i + 1);
        return Err(error.value);
      }
    }
    assert records[..|records|] == records;
    return if pending.Some? then Err(Incomplete) else Ok(messages);
  }

  method Received(messages: seq<InputMessage>, pending: Option<Pending>, lastSequence: Option<nat>,
                  lastTick: Option<nat>, record: Record)
    returns (error: Option<Error>, pending': Option<Pending>, lastSequence': Option<nat>, lastTick': Option<nat>)
    requires record.Receive?
    ensures Step(State(messages, pending, lastSequence, lastTick), record) ==
      if error.Some? then Err(error.value) else Ok(State(messages, pending', lastSequence', lastTick'))
  {
    error, pending', lastSequence', lastTick' := None, pending, lastSequence, lastTick;
    if pending.Some? {
      error := Some(Interrupted);
    } else if record.bits == 0 || record.bits % 8 != 0 {
      error := Some(NotWholeOctets);
    } else if lastSequence.Some? && record.sequence != lastSequence.value + 1 {
      error := Some(SequenceGap);
    } else if lastTick.Some? && record.tick < lastTick.value {
      error := Some(TickBackward);
    } else {
      pending' := Some(Pending(record.sequence, record.tick, record.bits, [], None));
      lastSequence', lastTick' := Some(record.sequence), Some(record.tick);
    }
  }

  method AssembledOne(messages: seq<InputMessage>, pending: Option<Pending>, lastSequence: Option<nat>,
                      lastTick: Option<nat>, record: Record)
    returns (error: Option<Error>, pending': Option<Pending>, lastTick': Option<nat>)
    requires record.Assembly?
    ensures Step(State(messages, pending, lastSequence, lastTick), record) ==
      if error.Some? then Err(error.value) else Ok(State(messages, pending', lastSequence, lastTick'))
  {
    error, pending', lastTick' := None, pending, lastTick;
    if pending.None? || pending.value.assembly.Some? {
      error := Some(NoPendingMessage);
      return;
    }
    var message := pending.value;
    if record.sequence != message.sequence || record.messageBits != message.bits {
      error := Some(IdentityChanged);
      return;
    }
    if record.index != |message.words| {
      error := Some(IndexGap);
      return;
    }
    var expectedStart := 0;
    for i := 0 to |message.words|
      invariant expectedStart == Widths(message.words[..i])
    {
      assert message.words[..i + 1][..i] == message.words[..i];
      expectedStart := expectedStart + message.words[i].width;
    }
    assert message.words[..|message.words|] == message.words;
    var remaining := if record.start <= message.bits then message.bits - record.start else 0;
    var expectedValid := if record.width <= remaining then record.width else remaining;
    if record.start != expectedStart {
      error := Some(StartGap);
    } else if record.width !in {32, 36} || (record.width == 32 && record.value % 16 != 0) {
      error := Some(BadWidth);
    } else if record.valid != expectedValid || record.last != (record.start + record.width >= message.bits) {
      error := Some(BadValidBits);
    } else if lastTick.Some? && record.tick < lastTick.value {
      error := Some(TickBackward);
    } else {
      pending' := Some(message.(assembly := Some(Assembled(record.tick, record.index, record.start, record.width,
                                                           record.valid, record.last, record.value))));
      lastTick' := Some(record.tick);
    }
  }

  method Consumed(messages: seq<InputMessage>, pending: Option<Pending>, lastSequence: Option<nat>,
                  lastTick: Option<nat>, record: Record)
    returns (error: Option<Error>, messages': seq<InputMessage>, pending': Option<Pending>, lastTick': Option<nat>)
    requires record.Consume?
    ensures Step(State(messages, pending, lastSequence, lastTick), record) ==
      if error.Some? then Err(error.value) else Ok(State(messages', pending', lastSequence, lastTick'))
  {
    error, messages', pending', lastTick' := None, messages, pending, lastTick;
    if pending.None? || pending.value.assembly.None? {
      error := Some(NoPendingAssembly);
      return;
    }
    var (message, assembly) := (pending.value, pending.value.assembly.value);
    if record.sequence != message.sequence || record.index != assembly.index || record.width != assembly.width
       || record.valid != assembly.valid || record.last != assembly.last || record.value != assembly.value {
      error := Some(Mismatch);
      return;
    }
    if lastTick.Some? && record.tick < lastTick.value {
      error := Some(TickBackward);
      return;
    }
    var words := message.words + [Paired(assembly, record)];
    lastTick' := Some(record.tick);
    if !record.last {
      pending' := Some(message.(words := words, assembly := None));
    } else if !(forall word :: word in words ==> word.valid <= 36) {
      error := Some(NotCovered);
    } else {
      var content := Reconstruct(message.bits, words);
      if content.Err? {
        error := Some(content.error);
      } else {
        messages' := messages + [InputMessage(message.sequence, message.receiveTick, message.bits, words,
                                              content.value)];
        pending' := None;
      }
    }
  }

  // ----- printing, and what acceptance means -----

  function AssemblyOf(sequence: nat, bits: nat, word: Assembled): Record {
    Assembly(word.tick, sequence, word.index, bits, word.start, word.width, word.valid, word.last, word.value)
  }

  function FirstHalf(word: InputWord): Assembled {
    Assembled(word.assemblyTick, word.index, word.start, word.width, word.valid, word.last, word.value)
  }

  function ConsumeOf(sequence: nat, word: InputWord): Record {
    Consume(word.consumeTick, sequence, word.index, word.width, word.valid, word.last, word.value, word.pc)
  }

  /** The records of a message's first words. */
  function Pairs(sequence: nat, bits: nat, words: seq<InputWord>): seq<Record> {
    if words == [] then []
    else var (rest, last) := (words[..|words| - 1], words[|words| - 1]);
      Pairs(sequence, bits, rest) + [AssemblyOf(sequence, bits, FirstHalf(last)), ConsumeOf(sequence, last)]
  }

  function Print(message: InputMessage): seq<Record> {
    [Receive(message.receiveTick, message.sequence, message.bits)]
    + Pairs(message.sequence, message.bits, message.words)
  }

  function PrintAll(messages: seq<InputMessage>): seq<Record> {
    if messages == [] then [] else PrintAll(messages[..|messages| - 1]) + Print(messages[|messages| - 1])
  }

  /** A message its own records prove: checked words ending in the only last one, and the
      octets they carry. */
  predicate Proven(message: InputMessage) {
    var words := message.words;
    && message.bits > 0 && message.bits % 8 == 0
    && WordsOk(words, message.bits) && words != []
    && words[|words| - 1].last && NoLast(words[..|words| - 1])
    && Narrow(words) && message.content == FromNat(Value(words), message.bits / 8)
  }

  predicate Contiguous(messages: seq<InputMessage>) {
    forall i :: 0 < i < |messages| ==> messages[i].sequence == messages[i - 1].sequence + 1
  }

  function Tick(record: Record): nat { if record.Unreadable? then 0 else record.tick }

  predicate Ordered(records: seq<Record>) {
    forall i, j :: 0 <= i < j < |records| ==> Tick(records[i]) <= Tick(records[j])
  }

  predicate Faithful(messages: seq<InputMessage>, records: seq<Record>) {
    && PrintAll(messages) == records && Ordered(records) && Contiguous(messages)
    && forall message :: message in messages ==> Proven(message)
  }

  function PrintPending(pending: Option<Pending>): seq<Record> {
    match pending
    case None => []
    case Some(p) =>
      [Receive(p.receiveTick, p.sequence, p.bits)] + Pairs(p.sequence, p.bits, p.words)
      + match p.assembly case None => [] case Some(a) => [AssemblyOf(p.sequence, p.bits, a)]
  }

  predicate PendingOk(p: Pending) {
    && p.bits > 0 && p.bits % 8 == 0 && WordsOk(p.words, p.bits) && NoLast(p.words)
    && (p.assembly.Some? ==>
          var a := p.assembly.value;
          var word := InputWord(a.index, a.start, a.width, a.valid, a.last, a.value, a.tick, 0, 0);
          WordOk(p.words + [word], |p.words|, p.bits))
  }

  function LastTick(records: seq<Record>): Option<nat> {
    if records == [] then None else Some(Tick(records[|records| - 1]))
  }

  function Sequences(state: State): seq<nat> {
    seq(|state.messages|, i requires 0 <= i < |state.messages| => state.messages[i].sequence)
    + match state.pending case None => [] case Some(p) => [p.sequence]
  }

  predicate Stepwise(numbers: seq<nat>) { forall i :: 0 < i < |numbers| ==> numbers[i] == numbers[i - 1] + 1 }

  /** What holds of the parser's state after any accepted records. */
  predicate Reached(records: seq<Record>, state: State) {
    && records == PrintAll(state.messages) + PrintPending(state.pending)
    && Ordered(records) && state.lastTick == LastTick(records)
    && (forall message :: message in state.messages ==> Proven(message))
    && (state.pending.Some? ==> PendingOk(state.pending.value))
    && Stepwise(Sequences(state))
    && state.lastSequence == (if Sequences(state) == [] then None else Some(Sequences(state)[|Sequences(state)| - 1]))
  }

  lemma OrderedSnoc(records: seq<Record>, record: Record)
    requires Ordered(records) && Forward(LastTick(records), Tick(record))
    ensures Ordered(records + [record])
  {
    var more := records + [record];
    forall i, j | 0 <= i < j < |more| ensures Tick(more[i]) <= Tick(more[j]) {
      if j == |records| && i < |records| - 1 {
        assert Tick(records[i]) <= Tick(records[|records| - 1]);
      }
    }
  }

  lemma ReachedReceive(records: seq<Record>, state: State, record: Record)
    requires Reached(records, state) && record.Receive? && OnReceive(state, record).Ok?
    ensures Reached(records + [record], OnReceive(state, record).value)
  {
    var next := OnReceive(state, record).value;
    OrderedSnoc(records, record);
    assert PrintPending(next.pending) == [record];
    assert Sequences(next) == Sequences(state) + [record.sequence];
  }

  lemma ReachedAssembly(records: seq<Record>, state: State, record: Record)
    requires Reached(records, state) && record.Assembly? && OnAssembly(state, record).Ok?
    ensures Reached(records + [record], OnAssembly(state, record).value)
  {
    var next := OnAssembly(state, record).value;
    OrderedSnoc(records, record);
    var p := state.pending.value;
    assert PrintPending(next.pending) == PrintPending(state.pending) + [record];
    assert Sequences(next) == Sequences(state);
    var a := next.pending.value.assembly.value;
    var word := InputWord(a.index, a.start, a.width, a.valid, a.last, a.value, a.tick, 0, 0);
    assert (p.words + [word])[..|p.words|] == p.words;
  }

  /** A consumption completes the checked word; after the last one the whole message is covered. */
  lemma ConsumedWords(p: Pending, record: Record)
    requires PendingOk(p) && p.assembly.Some? && record.Consume?
    requires var a := p.assembly.value;
      record.index == a.index && record.width == a.width && record.valid == a.valid && record.last == a.last
      && record.value == a.value
    ensures var words := p.words + [Paired(p.assembly.value, record)];
      && WordsOk(words, p.bits) && Narrow(words)
      && (record.last ==> ValidBits(words) == p.bits)
      && (!record.last ==> NoLast(words))
      && Pairs(p.sequence, p.bits, words) == Pairs(p.sequence, p.bits, p.words)
           + [AssemblyOf(p.sequence, p.bits, p.assembly.value), ConsumeOf(p.sequence, Paired(p.assembly.value, record))]
  {
    var a := p.assembly.value;
    var checked := InputWord(a.index, a.start, a.width, a.valid, a.last, a.value, a.tick, 0, 0);
    var word := Paired(a, record);
    var words := p.words + [word];
    assert (p.words + [checked])[..|p.words|] == p.words && words[..|p.words|] == p.words;
    assert WordOk(words, |p.words|, p.bits);
    WordsOkSnoc(p.words, word, p.bits);
    Coverage(words, p.bits);
  }

  lemma ReachedConsume(records: seq<Record>, state: State, record: Record)
    requires Reached(records, state) && record.Consume?
    ensures OnConsume(state, record) != Err(NotCovered)
    ensures OnConsume(state, record).Ok? ==> Reached(records + [record], OnConsume(state, record).value)
  {
    hide Value, WordsOk, NoLast, Narrow, ValidBits, Pairs;
    if state.pending.Some? && state.pending.value.assembly.Some? {
      var p := state.pending.value;
      var a := p.assembly.value;
      if record.index == a.index && record.width == a.width && record.valid == a.valid && record.last == a.last
         && record.value == a.value {
        ConsumedWords(p, record);
        if OnConsume(state, record).Ok? {
          ConsumedState(records, state, record);
        }
      }
    }
  }

  /** The pair is complete, and the message goes on. */
  lemma ConsumedMore(records: seq<Record>, state: State, record: Record)
    requires Reached(records, state) && record.Consume? && OnConsume(state, record).Ok? && !record.last
    ensures Reached(records + [record], OnConsume(state, record).value)
  {
    hide Value, WordsOk, Narrow, NoLast, ValidBits, Pairs, PrintAll, Proven, Stepwise, Ordered;
    var next := OnConsume(state, record).value;
    var p := state.pending.value;
    ConsumedWords(p, record);
    OrderedSnoc(records, record);
    assert Sequences(next) == Sequences(state);
    assert PrintPending(next.pending) == PrintPending(state.pending) + [record];
    assert records + [record] == PrintAll(next.messages) + PrintPending(next.pending);
  }

  /** The pair is the last, and the message is proved by its words. */
  lemma ConsumedMessage(p: Pending, record: Record)
    requires PendingOk(p) && p.assembly.Some? && record.Consume? && record.sequence == p.sequence && record.last
    requires var a := p.assembly.value;
      record.index == a.index && record.width == a.width && record.valid == a.valid && a.last && record.value == a.value
    ensures var words := p.words + [Paired(p.assembly.value, record)];
      Narrow(words) && Proven(Whole(p.(words := words)))
      && Print(Whole(p.(words := words))) == PrintPending(Some(p)) + [record]
  {
    hide Value, WordsOk, Narrow, NoLast, ValidBits, Pairs;
    var words := p.words + [Paired(p.assembly.value, record)];
    ConsumedWords(p, record);
    assert words[..|words| - 1] == p.words;
  }

  lemma ConsumedLast(records: seq<Record>, state: State, record: Record)
    requires Reached(records, state) && record.Consume? && OnConsume(state, record).Ok? && record.last
    ensures Reached(records + [record], OnConsume(state, record).value)
  {
    var p := state.pending.value;
    var message := Whole(p.(words := p.words + [Paired(p.assembly.value, record)]));
    ConsumedMessage(p, record);
    OrderedSnoc(records, record);
    hide OnConsume, Whole, Value, WordsOk, Narrow, NoLast, ValidBits, Pairs, Proven, Ordered, PendingOk, Print;
    MessageDone(records, state, record, message);
  }

  lemma MessageDone(records: seq<Record>, state: State, record: Record, message: InputMessage)
    requires Reached(records, state) && state.pending.Some? && message.sequence == state.pending.value.sequence
    requires Proven(message) && Print(message) == PrintPending(state.pending) + [record] && Ordered(records + [record])
    ensures Reached(records + [record],
                    state.(messages := state.messages + [message], pending := None, lastTick := Some(Tick(record))))
  {
    hide Proven, Stepwise, Ordered, PendingOk, Print, PrintPending, PrintAll, Sequences;
    NothingPending();
    SequencesMove(state, message, Some(Tick(record)));
    PrintAllGrows(state.messages, message);
    assert records + [record] == PrintAll(state.messages) + (PrintPending(state.pending) + [record]);
  }

  lemma PrintAllGrows(messages: seq<InputMessage>, message: InputMessage)
    ensures PrintAll(messages + [message]) == PrintAll(messages) + Print(message)
  {
    assert (messages + [message])[..|messages|] == messages;
  }

  lemma SequencesMove(state: State, message: InputMessage, tick: Option<nat>)
    requires state.pending.Some? && message.sequence == state.pending.value.sequence
    ensures Sequences(state.(messages := state.messages + [message], pending := None, lastTick := tick)) ==
      Sequences(state)
  {
  }

  lemma NothingPending()
    ensures PrintPending(None) == []
  {
  }

  lemma ConsumedState(records: seq<Record>, state: State, record: Record)
    requires Reached(records, state) && record.Consume? && OnConsume(state, record).Ok?
    ensures Reached(records + [record], OnConsume(state, record).value)
  {
    hide *;
    if record.last {
      ConsumedLast(records, state, record);
    } else {
      ConsumedMore(records, state, record);
    }
  }

  lemma {:induction false} RunReaches(records: seq<Record>)
    ensures Run(records) != Err(NotCovered)
    ensures Run(records).Ok? ==> Reached(records, Run(records).value)
  {
    hide Reached, OnReceive, OnAssembly, OnConsume;
    if records == [] {
      StartReached();
    } else {
      var (rest, last) := (records[..|records| - 1], records[|records| - 1]);
      RunReaches(rest);
      assert rest + [last] == records;
      if Run(rest).Ok? {
        var state := Run(rest).value;
        match last {
          case Receive(_, _, _) =>
            ReceiveNeverUncovered(state, last);
            if OnReceive(state, last).Ok? { ReachedReceive(rest, state, last); }
          case Assembly(_, _, _, _, _, _, _, _, _) =>
            AssemblyNeverUncovered(state, last);
            if OnAssembly(state, last).Ok? { ReachedAssembly(rest, state, last); }
          case Consume(_, _, _, _, _, _, _, _) => ReachedConsume(rest, state, last);
          case Unreadable =>
        }
      }
    }
  }

  lemma StartReached()
    ensures Reached([], START)
  {
  }

  lemma ReceiveNeverUncovered(state: State, record: Record)
    requires record.Receive?
    ensures OnReceive(state, record) != Err(NotCovered)
  {
  }

  lemma AssemblyNeverUncovered(state: State, record: Record)
    requires record.Assembly?
    ensures OnAssembly(state, record) != Err(NotCovered)
  {
  }

  // ----- every faithful print is accepted -----

  predicate Follows(state: State, message: InputMessage) {
    state.lastSequence.None? || message.sequence == state.lastSequence.value + 1
  }

  function Until(base: seq<Record>, message: InputMessage, k: nat): seq<Record>
    requires k <= |message.words|
  {
    base + [Receive(message.receiveTick, message.sequence, message.bits)]
    + Pairs(message.sequence, message.bits, message.words[..k])
  }

  lemma PairsSnoc(sequence: nat, bits: nat, words: seq<InputWord>, k: nat)
    requires k < |words|
    ensures Pairs(sequence, bits, words[..k + 1]) == Pairs(sequence, bits, words[..k])
      + [AssemblyOf(sequence, bits, FirstHalf(words[k])), ConsumeOf(sequence, words[k])]
  {
    assert words[..k + 1][..k] == words[..k];
  }

  lemma {:induction false} PairsPrefix(sequence: nat, bits: nat, words: seq<InputWord>, k: nat)
    requires k <= |words|
    ensures Pairs(sequence, bits, words[..k]) <= Pairs(sequence, bits, words)
    decreases |words| - k
  {
    if k < |words| {
      PairsPrefix(sequence, bits, words, k + 1);
      PairsSnoc(sequence, bits, words, k);
    } else {
      assert words[..k] == words;
    }
  }

  lemma OrderedPrefix(records: seq<Record>, k: nat)
    requires Ordered(records) && k < |records|
    ensures Ordered(records[..k]) && Forward(LastTick(records[..k]), Tick(records[k]))
  {
    if k > 0 {
      assert Tick(records[k - 1]) <= Tick(records[k]);
    }
  }

  /** The state after a message's first k words. */
  function After(state: State, message: InputMessage, k: nat, tick: Option<nat>): State
    requires k <= |message.words|
  {
    if k == |message.words| then State(state.messages + [message], None, Some(message.sequence), tick)
    else State(state.messages,
               Some(Pending(message.sequence, message.receiveTick, message.bits, message.words[..k], None)),
               Some(message.sequence), tick)
  }

  lemma {:induction false} RunWords(base: seq<Record>, state: State, message: InputMessage, k: nat)
    requires Run(base) == Ok(state) && state.pending.None? && state.lastTick == LastTick(base)
    requires Proven(message) && Follows(state, message) && k <= |message.words|
    requires Ordered(base + Print(message))
    ensures var records := Until(base, message, k);
      Run(records) == Ok(After(state, message, k, LastTick(records)))
  {
    hide Proven, Ordered, OnAssembly, OnConsume, Pairs;
    if k == 0 {
      RunReceive(base, state, message);
    } else {
      RunWords(base, state, message, k - 1);
      RunPair(base, state, message, k - 1);
    }
  }

  lemma RunReceive(base: seq<Record>, state: State, message: InputMessage)
    requires Run(base) == Ok(state) && state.pending.None? && state.lastTick == LastTick(base)
    requires Proven(message) && Follows(state, message)
    requires Ordered(base + Print(message))
    ensures var records := Until(base, message, 0);
      Run(records) == Ok(After(state, message, 0, LastTick(records)))
  {
    hide WordsOk, Value;
    var whole := base + Print(message);
    var receive := Receive(message.receiveTick, message.sequence, message.bits);
    assert message.words[..0] == [];
    assert Until(base, message, 0) == base + [receive];
    assert whole[..|base|] == base && whole[|base|] == receive;
    OrderedPrefix(whole, |base|);
    RunAppend(base, receive);
  }

  lemma RunPair(base: seq<Record>, state: State, message: InputMessage, k: nat)
    requires Proven(message) && k < |message.words|
    requires Ordered(base + Print(message))
    requires var records := Until(base, message, k);
      Run(records) == Ok(After(state, message, k, LastTick(records)))
    ensures var records := Until(base, message, k + 1);
      Run(records) == Ok(After(state, message, k + 1, LastTick(records)))
  {
    hide Proven, Ordered, OnAssembly, OnConsume, Pairs, After, Run;
    var word := message.words[k];
    var before := Until(base, message, k);
    var assembly := AssemblyOf(message.sequence, message.bits, FirstHalf(word));
    var consume := ConsumeOf(message.sequence, word);
    PairPlaced(base, message, k);
    RunAppend(before, assembly);
    RunAppend(before + [assembly], consume);
    PairAccepted(state, message, k, LastTick(before));
  }

  /** Where a word's two records stand in the whole trace. */
  lemma PairPlaced(base: seq<Record>, message: InputMessage, k: nat)
    requires k < |message.words| && Ordered(base + Print(message))
    ensures var (before, word) := (Until(base, message, k), message.words[k]);
      && Until(base, message, k + 1) == before + [AssemblyOf(message.sequence, message.bits, FirstHalf(word))]
           + [ConsumeOf(message.sequence, word)]
      && Forward(LastTick(before), word.assemblyTick) && word.assemblyTick <= word.consumeTick
  {
    hide Ordered, Pairs;
    var word := message.words[k];
    var before := Until(base, message, k);
    var assembly := AssemblyOf(message.sequence, message.bits, FirstHalf(word));
    var consume := ConsumeOf(message.sequence, word);
    var whole := base + Print(message);
    PairsSnoc(message.sequence, message.bits, message.words, k);
    PairsPrefix(message.sequence, message.bits, message.words, k + 1);
    var after := Until(base, message, k + 1);
    assert after == before + [assembly] + [consume] && after == whole[..|after|];
    assert whole[..|before|] == before && whole[|before|] == assembly;
    assert whole[..|before| + 1] == before + [assembly] && whole[|before| + 1] == consume;
    OrderedPrefix(whole, |before|);
    OrderedPrefix(whole, |before| + 1);
  }

  /** Both records of a checked word are accepted in turn. */
  lemma PairAccepted(state: State, message: InputMessage, k: nat, tick: Option<nat>)
    requires Proven(message) && k < |message.words|
    requires var word := message.words[k]; Forward(tick, word.assemblyTick) && word.assemblyTick <= word.consumeTick
    ensures var word := message.words[k];
      var first := OnAssembly(After(state, message, k, tick),
                              AssemblyOf(message.sequence, message.bits, FirstHalf(word)));
      && first.Ok?
      && OnConsume(first.value, ConsumeOf(message.sequence, word)) ==
         Ok(After(state, message, k + 1, Some(word.consumeTick)))
  {
    hide Value;
    var (words, word) := (message.words, message.words[k]);
    assert WordOk(words, k, message.bits);
    assert words[..k + 1] == words[..k] + [word];
    if k + 1 < |words| {
      assert words[..|words| - 1][k] == word;
    } else {
      assert words[..k + 1] == words;
      Coverage(words, message.bits);
      assert word.last;
      WidthsAt(words);
    }
  }

  lemma WidthsAt(words: seq<InputWord>)
    requires words != []
    ensures Widths(words) == Widths(words[..|words| - 1]) + words[|words| - 1].width
  {
  }

  lemma RunMessage(base: seq<Record>, state: State, message: InputMessage)
    requires Run(base) == Ok(state) && state.pending.None? && state.lastTick == LastTick(base)
    requires Proven(message) && Follows(state, message)
    requires Ordered(base + Print(message))
    ensures var records := base + Print(message);
      Run(records) == Ok(State(state.messages + [message], None, Some(message.sequence), LastTick(records)))
  {
    hide Proven, Ordered, Pairs, Run;
    RunWords(base, state, message, |message.words|);
    assert message.words[..|message.words|] == message.words;
    assert Until(base, message, |message.words|) == base + Print(message);
  }

  lemma {:induction false} FaithfulRuns(messages: seq<InputMessage>, records: seq<Record>)
    requires Faithful(messages, records)
    ensures Run(records).Ok?
    ensures var state := Run(records).value;
      && state.messages == messages && state.pending.None? && state.lastTick == LastTick(records)
      && state.lastSequence == (if messages == [] then None else Some(messages[|messages| - 1].sequence))
  {
    hide Proven, Pairs, OnReceive, OnAssembly, OnConsume;
    if messages != [] {
      var (rest, last) := (messages[..|messages| - 1], messages[|messages| - 1]);
      var base := PrintAll(rest);
      assert base == records[..|base|];
      FaithfulRuns(rest, base);
      assert rest != [] ==> messages[|rest|].sequence == messages[|rest| - 1].sequence + 1;
      RunMessage(base, Run(base).value, last);
      assert rest + [last] == messages;
    }
  }

  /** Acceptance, exactly: the trace is the print of these messages, its ticks never go
      back, the sequence numbers have no gap, and every message is proved by its words. */
  lemma AcceptedExactly(records: seq<Record>, messages: seq<InputMessage>)
    ensures Parse(records) == Ok(messages) <==> Faithful(messages, records)
  {
    hide Proven, OnReceive, OnAssembly, OnConsume;
    if Faithful(messages, records) {
      FaithfulRuns(messages, records);
    }
    if Parse(records) == Ok(messages) {
      RunReaches(records);
      var state := Run(records).value;
      assert PrintAll(state.messages) + [] == PrintAll(state.messages);
      forall i | 0 < i < |messages| ensures messages[i].sequence == messages[i - 1].sequence + 1 {
        assert Sequences(state)[i] == Sequences(state)[i - 1] + 1;
      }
    }
  }

  /** The final length check can never fail. */
  lemma NeverUncovered(records: seq<Record>)
    ensures Parse(records) != Err(NotCovered)
  {
    RunReaches(records);
  }
}
