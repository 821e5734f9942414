/**
 The guest side of a KA10 interface trace: a message cut into left-aligned words of any widths,
 read in time order. What the parser of ncc/ka10_imp_journey.py makes of it is the message.
 */
module Ka10Assembly {
  import opened Octets
  import opened Wrappers
  import opened Ka10Trace

  /** One guest read: how wide it was, and when and where it happened. */
  datatype Slot = Slot(width: nat, assemblyTick: nat, consumeTick: nat, pc: nat)

  function Reach(slots: seq<Slot>): nat {
    if slots == [] then 0 else Reach(slots[..|slots| - 1]) + slots[|slots| - 1].width
  }

  predicate Slotted(slots: seq<Slot>) { forall slot :: slot in slots ==> slot.width in {32, 36} }

  /** The message's bits from `start`, at the top of a 36-bit word. */
  function LeftAligned(number: nat, bits: nat, start: nat, valid: nat): nat
    requires start + valid <= bits && valid <= 36
  {
    Shift(number, bits - start - valid) % Pow2(valid) * Pow2(36 - valid)
  }

  lemma LeftAlignedFits(number: nat, bits: nat, start: nat, valid: nat)
    requires start + valid <= bits && valid <= 36
    ensures LeftAligned(number, bits, start, valid) < 0x10_0000_0000
    ensures Shift(LeftAligned(number, bits, start, valid), 36 - valid)
      == Shift(number, bits - start - valid) % Pow2(valid)
    ensures valid <= 32 ==> LeftAligned(number, bits, start, valid) % 16 == 0
  {
    hide Pow2;
    AlignedFits(Shift(number, bits - start - valid) % Pow2(valid), valid);
  }

  lemma AlignedFits(piece: nat, valid: nat)
    requires valid <= 36 && piece < Pow2(valid)
    ensures piece * Pow2(36 - valid) < 0x10_0000_0000
    ensures Shift(piece * Pow2(36 - valid), 36 - valid) == piece
    ensures valid <= 32 ==> piece * Pow2(36 - valid) % 16 == 0
  {
    hide Pow2;
    var unit := Pow2(36 - valid);
    Pow2Values();
    Pow2Sum(valid, 36 - valid);
    Shifted(piece, Pow2(valid), 0, unit);
    Quotient(piece * unit, unit, piece, 0);
    if valid <= 32 {
      Pow2Sum(32 - valid, 4);
      Product(piece, Pow2(32 - valid), 16);
      Quotient(piece * unit, 16, piece * Pow2(32 - valid), 0);
    }
  }

  /** The word that a slot takes from `start` on. */
  function SlotWord(number: nat, bits: nat, index: nat, start: nat, slot: Slot): InputWord
    requires slot.width in {32, 36} && start < bits
  {
    var valid := Carried(bits, start, slot.width);
    LeftAlignedFits(number, bits, start, valid);
    InputWord(index, start, slot.width, valid, start + slot.width >= bits, LeftAligned(number, bits, start, valid),
              slot.assemblyTick, slot.consumeTick, slot.pc)
  }

  function AssembleWords(number: nat, bits: nat, slots: seq<Slot>): (words: seq<InputWord>)
    requires Slotted(slots)
    requires forall i :: 0 <= i < |slots| ==> Reach(slots[..i]) < bits
    ensures |words| == |slots|
  {
    if slots == [] then []
    else
      var (rest, slot) := (slots[..|slots| - 1], slots[|slots| - 1]);
      assert forall i :: 0 <= i < |rest| ==> rest[..i] == slots[..i];
      AssembleWords(number, bits, rest) + [SlotWord(number, bits, |rest|, Reach(rest), slot)]
  }

  /** The words collected so far are checked, and carry the top bits of the message. */
  ghost predicate Collected(number: nat, bits: nat, words: seq<InputWord>) {
    WordsOk(words, bits) && Narrow(words) && Value(words) == Shift(number, bits - Min(Widths(words), bits))
  }

  lemma SlotCarries(number: nat, bits: nat, index: nat, start: nat, slot: Slot)
    requires slot.width in {32, 36} && start < bits
    ensures var (word, end) := (SlotWord(number, bits, index, start, slot), Min(start + slot.width, bits));
      && word.valid == end - start <= 36 && (slot.width == 32 ==> word.value % 16 == 0)
      && Shift(number, bits - start) * Pow2(word.valid) + Chunk(word.value, word.valid) == Shift(number, bits - end)
  {
    hide Pow2, Shift, LeftAligned;
    var word := SlotWord(number, bits, index, start, slot);
    LeftAlignedFits(number, bits, start, word.valid);
    ShiftBack(number, bits - start - word.valid, word.valid);
  }

  lemma OneMoreWord(number: nat, bits: nat, words: seq<InputWord>, slot: Slot)
    requires slot.width in {32, 36} && Collected(number, bits, words) && Widths(words) < bits
    ensures var more := words + [SlotWord(number, bits, |words|, Widths(words), slot)];
      Collected(number, bits, more) && Widths(more) == Widths(words) + slot.width
  {
    hide WordsOk, Pow2, Shift, Chunk, LeftAligned, Value, Widths, Narrow, SlotWord;
    var word := SlotWord(number, bits, |words|, Widths(words), slot);
    SlotCarries(number, bits, |words|, Widths(words), slot);
    SlotWordOk(number, bits, words, slot);
    WordsGrow(words, word);
    WordsOkSnoc(words, word, bits);
  }

  lemma SlotWordOk(number: nat, bits: nat, words: seq<InputWord>, slot: Slot)
    requires slot.width in {32, 36} && Widths(words) < bits
    ensures var word := SlotWord(number, bits, |words|, Widths(words), slot);
      WordOk(words + [word], |words|, bits) && word.width == slot.width
  {
    hide Pow2, Shift, LeftAligned;
    SlotCarries(number, bits, |words|, Widths(words), slot);
    assert (words + [SlotWord(number, bits, |words|, Widths(words), slot)])[..|words|] == words;
  }

  lemma WordsGrow(words: seq<InputWord>, word: InputWord)
    requires Narrow(words) && word.valid <= 36
    ensures Narrow(words + [word]) && Widths(words + [word]) == Widths(words) + word.width
    ensures Value(words + [word]) == Value(words) * Pow2(word.valid) + Chunk(word.value, word.valid)
  {
    hide Pow2, Shift;
    assert (words + [word])[..|words|] == words;
  }

  lemma {:induction false} AssembledWords(number: nat, bits: nat, slots: seq<Slot>)
    requires Slotted(slots) && number < Pow2(bits)
    requires forall i :: 0 <= i < |slots| ==> Reach(slots[..i]) < bits
    ensures var words := AssembleWords(number, bits, slots);
      Widths(words) == Reach(slots) && Collected(number, bits, words)
  {
    hide Collected, Pow2, SlotWord;
    if slots == [] {
      EmptyWords(number, bits);
    } else {
      var (rest, slot) := (slots[..|slots| - 1], slots[|slots| - 1]);
      assert forall i :: 0 <= i < |rest| ==> rest[..i] == slots[..i];
      AssembledWords(number, bits, rest);
      assert Reach(slots[..|rest|]) < bits;
      OneMoreWord(number, bits, AssembleWords(number, bits, rest), slot);
    }
  }

  lemma NothingShifted(number: nat, bits: nat)
    requires number < Pow2(bits)
    ensures Shift(number, bits) == 0
  {
    Quotient(number, Pow2(bits), 0, number);
  }

  lemma EmptyWords(number: nat, bits: nat)
    requires number < Pow2(bits)
    ensures Widths([]) == 0 && Collected(number, bits, [])
  {
    hide Pow2, Shift;
    NothingShifted(number, bits);
  }

  /** The message an assembler with these slots makes of these octets. */
  function AssembledMessage(octets: seq<Octet>, sequence: nat, tick: nat, slots: seq<Slot>): InputMessage
    requires Slotted(slots)
    requires forall i :: 0 <= i < |slots| ==> Reach(slots[..i]) < 8 * |octets|
  {
    InputMessage(sequence, tick, 8 * |octets|, AssembleWords(ToNat(octets), 8 * |octets|, slots), octets)
  }

  /** Cut any octets into left-aligned words of any widths that cover them, read by the
      guest in time order: parsing the trace gives back exactly these octets. */
  lemma {:induction false} AssemblyRoundTrip(octets: seq<Octet>, sequence: nat, tick: nat, slots: seq<Slot>)
    requires octets != [] && Slotted(slots)
    requires forall i :: 0 <= i < |slots| ==> Reach(slots[..i]) < 8 * |octets|
    requires Reach(slots) >= 8 * |octets|
    requires Ordered(Print(AssembledMessage(octets, sequence, tick, slots)))
    ensures var message := AssembledMessage(octets, sequence, tick, slots);
      Parse(Print(message)) == Ok([message]) && message.content == octets
  {
    hide Print, Ordered, Parse;
    var message := AssembledMessage(octets, sequence, tick, slots);
    AssembledProven(octets, sequence, tick, slots);
    assert [message][..0] == [];
    assert PrintAll([message]) == Print(message);
    AcceptedExactly(Print(message), [message]);
  }

  lemma {:induction false} AssembledProven(octets: seq<Octet>, sequence: nat, tick: nat, slots: seq<Slot>)
    requires octets != [] && Slotted(slots)
    requires forall i :: 0 <= i < |slots| ==> Reach(slots[..i]) < 8 * |octets|
    requires Reach(slots) >= 8 * |octets|
    ensures Proven(AssembledMessage(octets, sequence, tick, slots))
  {
    hide Narrow, WordsOk, NoLast, Value, AssembleWords, Pow2, ToNat;
    var (bits, number) := (8 * |octets|, ToNat(octets));
    assert slots != [];
    ToNatBound(octets);
    AssembledWords(number, bits, slots);
    LastsAtEnd(number, bits, slots);
    ShiftNone(number);
    FromNatInverts(octets);
    assert bits / 8 == |octets| && bits % 8 == 0;
  }

  lemma ShiftNone(number: nat)
    ensures Shift(number, 0) == number
  {
  }

  lemma {:induction false} LastsAtEnd(number: nat, bits: nat, slots: seq<Slot>)
    requires Slotted(slots)
    requires forall i :: 0 <= i < |slots| ==> Reach(slots[..i]) < bits
    ensures var words := AssembleWords(number, bits, slots);
      && (Reach(slots) < bits ==> NoLast(words))
      && (slots != [] ==> NoLast(words[..|words| - 1]) && (words[|words| - 1].last <==> Reach(slots) >= bits))
  {
    hide SlotWord;
    if slots != [] {
      var (rest, slot) := (slots[..|slots| - 1], slots[|slots| - 1]);
      assert forall i :: 0 <= i < |rest| ==> rest[..i] == slots[..i];
      LastsAtEnd(number, bits, rest);
      var words := AssembleWords(number, bits, slots);
      assert words[..|words| - 1] == AssembleWords(number, bits, rest);
      assert rest == slots[..|rest|];
      SlotLast(number, bits, |rest|, Reach(rest), slot);
    }
  }

  lemma SlotLast(number: nat, bits: nat, index: nat, start: nat, slot: Slot)
    requires slot.width in {32, 36} && start < bits
    ensures SlotWord(number, bits, index, start, slot).last <==> start + slot.width >= bits
  {
    hide LeftAligned;
  }
}
