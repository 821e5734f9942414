/**
 The 1822 leader conversion of ncc/ka10_imp_journey.py.  The simulator gives the KA10 host
 every message with a long leader; the adapter undoes that to compare it with the short
 leader seen on the other side.
 */
module LeaderConversion {
  import opened Octets
  import opened Wrappers
  import Ka10Trace

  type Word16 = w: nat | w < 0x1_0000

  const NEW_FORMAT := 0x0F00
  const FOR_IMP_HOST := 252
  const REGULAR := 0
  const UNCONTROLLED := 3
  const NOP := 4

  datatype Error =
    | NotWholeLeader
    | NoFormatFlag
    | UnsupportedFlags
    | NoncanonicalAddress
    | BadDataLength
    | PaddingNotWords
    | PaddingNotZero
    | LengthDisagrees
    | HostTooLarge

  /** A short leader field by field. */
  datatype Short = Short(priority: bool, forImp: bool, trace: bool, octal: bool, kind: nat, host: nat, imp: nat,
                         identifier: nat, subtype: nat) {
    predicate Valid() { kind < 16 && host < 4 && imp < 64 && identifier < 0x1000 && subtype < 16 }
  }

  function Bit(b: bool): nat { if b then 1 else 0 }

  function First(leader: Short): Word16
    requires leader.Valid()
  {
    (Bit(leader.priority) * 8 + Bit(leader.forImp) * 4 + Bit(leader.trace) * 2 + Bit(leader.octal)) * 0x1000
    + leader.kind * 0x100 + leader.host * 0x40 + leader.imp
  }

  function Second(leader: Short): Word16
    requires leader.Valid()
  {
    leader.identifier * 16 + leader.subtype
  }

  /** The two leader words say everything about the fields. */
  lemma LeaderWords(leader: Short)
    requires leader.Valid()
    ensures ShortOf(First(leader), Second(leader)) == leader
  {
    var flags := Bit(leader.priority) * 8 + Bit(leader.forImp) * 4 + Bit(leader.trace) * 2 + Bit(leader.octal);
    Quotient(First(leader), 0x1000, flags, leader.kind * 0x100 + leader.host * 0x40 + leader.imp);
    Quotient(First(leader), 0x100, flags * 16 + leader.kind, leader.host * 0x40 + leader.imp);
    Quotient(First(leader), 0x40, flags * 64 + leader.kind * 4 + leader.host, leader.imp);
    Quotient(Second(leader), 16, leader.identifier, leader.subtype);
    Quotient(flags * 16 + leader.kind, 16, flags, leader.kind);
    Quotient(flags * 64 + leader.kind * 4 + leader.host, 4, flags * 16 + leader.kind, leader.host);
    hide First, Second;
    FlagsKept(leader.priority, leader.forImp, leader.trace, leader.octal);
  }

  lemma FlagsKept(a: bool, b: bool, c: bool, d: bool)
    ensures var flags := Bit(a) * 8 + Bit(b) * 4 + Bit(c) * 2 + Bit(d);
      (flags / 8 % 2 == 1) == a && (flags / 4 % 2 == 1) == b && (flags / 2 % 2 == 1) == c && (flags % 2 == 1) == d
  {
  }

  function ShortOf(first: Word16, second: Word16): Short {
    var flags := first / 0x1000;
    Short(flags / 8 % 2 == 1, flags / 4 % 2 == 1, flags / 2 % 2 == 1, flags % 2 == 1,
          first / 0x100 % 16, first / 0x40 % 4, first % 0x40, second / 16, second % 16)
  }

  // ----- short to long -----

  function Zeros(n: nat): seq<Word16> { seq(n, _ => 0) }

  /** The canonical long form: uncontrolled packets become a subtype of regular ones. */
  function LongForm(leader: Short, data: seq<Word16>, padding: nat): seq<Word16>
    requires leader.Valid() && |data| < 0x1000
  {
    var (kind, subtype) := if leader.kind == UNCONTROLLED then (REGULAR, UNCONTROLLED)
                           else (leader.kind, leader.subtype);
    [NEW_FORMAT,
     (Bit(leader.trace) * 8 + Bit(leader.octal) * 4) * 0x100 + kind,
     (Bit(leader.priority) * 0x80 + 7) * 0x100 + leader.host + Bit(leader.forImp) * FOR_IMP_HOST,
     leader.imp,
     leader.identifier * 16 + subtype,
     16 * |data|] + Zeros(padding) + data
  }

  // ----- long to short -----

  function Pack(high: Octet, low: Octet): Word16 { high * 0x100 + low }

  /** Network-order words of an octet string. */
  function Words(content: seq<Octet>): seq<Word16> {
    seq(|content| / 2, i requires 0 <= i < |content| / 2 => Pack(content[2 * i], content[2 * i + 1]))
  }

  /** How long the padding is.  The two last comparisons can never fail. */
  method Lengths(words: seq<Word16>, bits: nat) returns (result: Result<nat, Error>)
    requires bits >= 96 && bits % 16 == 0 && |words| == bits / 16
    ensures words[5] % 16 != 0 || words[5] > bits - 96 ==> result == Err(BadDataLength)
    ensures !(words[5] % 16 != 0 || words[5] > bits - 96) ==>
      var padding := |words| - 6 - words[5] / 16;
      result == if words[6..6 + padding] != Zeros(padding) then Err(PaddingNotZero) else Ok(padding)
  {
    var dataBits := words[5];
    if dataBits % 16 != 0 || dataBits > bits - 96 {
      return Err(BadDataLength);
    }
    var paddingBits := bits - 96 - dataBits;
    if paddingBits % 16 != 0 {
      return Err(PaddingNotWords);
    }
    var padding := paddingBits / 16;
    for i := 6 to 6 + padding
      invariant forall j :: 6 <= j < i ==> words[j] == 0
    {
      if words[i] != 0 {
        assert words[6..6 + padding][i - 6] != 0;
        return Err(PaddingNotZero);
      }
    }
    assert words[6..6 + padding] == Zeros(padding);
    if |words[6 + padding..]| * 16 != dataBits {
      return Err(LengthDisagrees);
    }
    return Ok(padding);
  }

  /** The leader fields, folded back to the short form. */
  method ShortLeader(words: seq<Word16>) returns (result: Result<Short, Error>)
    requires |words| >= 6 && words[3] <= 63 && words[1] % 0x100 <= 15 && words[1] / 0x1000 == 0
    requires words[2] / 0x100 % 0x80 == 7
    ensures result == if LeaderIn(words).Valid() then Ok(LeaderIn(words)) else Err(HostTooLarge)
  {
    var newFlags := words[1] / 0x100 % 16;
    var kind := words[1] % 0x100;
    var hostType := words[2] / 0x100;
    var host := words[2] % 0x100;
    var subtype := words[4] % 16;
    FlagBits(words[1]);
    var forImp := host >= FOR_IMP_HOST;
    if forImp {
      host := host - FOR_IMP_HOST;
    }
    if host > 3 {
      return Err(HostTooLarge);
    }
    if kind == REGULAR && subtype == UNCONTROLLED {
      kind, subtype := UNCONTROLLED, 0;
    } else if kind == NOP {
      subtype := 0;
    }
    return Ok(Short(hostType >= 0x80, forImp, newFlags >= 8, newFlags / 4 % 2 == 1, kind, host, words[3], words[4] / 16,
                    subtype));
  }

  lemma FlagBits(word: Word16)
    ensures var flags := word / 0x100 % 16;
      && flags % 4 == word / 0x100 % 4
      && (flags >= 8 <==> word / 0x800 % 2 == 1) && flags / 4 % 2 == word / 0x400 % 2
  {
    DivTwice(word, 0x100, 8);
    DivTwice(word, 0x100, 4);
    NibbleBits(word / 0x100);
  }

  lemma NibbleBits(all: nat)
    ensures var flags := all % 16;
      flags % 4 == all % 4 && (flags >= 8 <==> all / 8 % 2 == 1) && flags / 4 % 2 == all / 4 % 2
  {
    DigitOfRest(all, 8, 2);
    DigitOfRest(all, 4, 4);
    assert all / 4 % 4 % 2 == all / 4 % 2 by { DigitOfRest(all / 4, 2, 2); }
  }

  /** Dividing what is left by `d * e` gives the same low digits as dividing the whole. */
  lemma DigitOfRest(all: nat, d: nat, e: nat)
    requires d > 0 && e > 0
    ensures d * e > 0 && all % (d * e) / d == all / d % e && all % (d * e) % d == all % d
  {
    AtLeastOnce(d, e);
    Divided(all, d);
    Divided(all / d, e);
    DigitAt(all, d, e, all / d, all / d / e, all / d % e, all % d);
  }

  lemma DigitAt(all: nat, d: nat, e: nat, q: nat, p: nat, s: nat, r: nat)
    requires s < e && r < d && d * e > 0
    requires q == p * e + s && all == q * d + r
    ensures all % (d * e) / d == s && all % (d * e) % d == r
  {
    TwoSteps(d, e, p, s, r);
    Quotient(all, d * e, p, s * d + r);
    Quotient(s * d + r, d, s, r);
  }

  /** The short form the adapter answers, leader words and data, or its refusal. */
  method NoscWords(message: Ka10Trace.InputMessage) returns (result: Result<seq<Word16>, Error>)
    requires message.bits == 8 * |message.content|
    ensures result == Converted(Words(message.content), message.bits)
  {
    if message.bits < 96 || message.bits % 16 != 0 {
      return Err(NotWholeLeader);
    }
    var words := Words(message.content);
    if words[0] != NEW_FORMAT {
      return Err(NoFormatFlag);
    }
    FlagBits(words[1]);
    if words[1] / 0x1000 != 0 || words[1] / 0x100 % 16 % 4 != 0 {
      return Err(UnsupportedFlags);
    }
    if words[2] / 0x100 % 0x80 != 7 || words[3] > 63 || words[1] % 0x100 > 15 {
      return Err(NoncanonicalAddress);
    }
    var padding := Lengths(words, message.bits);
    if padding.Err? {
      return Err(padding.error);
    }
    var leader := ShortLeader(words);
    if leader.Err? {
      return Err(leader.error);
    }
    return Ok([First(leader.value), Second(leader.value)] + words[6 + padding.value..]);
  }

  /** Undoing the folding of types; a NOP has no subtype. */
  function Unfolded(kind: nat, subtype: nat): (nat, nat) {
    if kind == REGULAR && subtype == UNCONTROLLED then (UNCONTROLLED, 0)
    else if kind == NOP then (NOP, 0)
    else (kind, subtype)
  }

  function LeaderIn(words: seq<Word16>): Short
    requires |words| >= 6
  {
    var host := words[2] % 0x100;
    var forImp := host >= FOR_IMP_HOST;
    var (kind, subtype) := Unfolded(words[1] % 0x100, words[4] % 16);
    Short(words[2] / 0x8000 == 1, forImp, words[1] / 0x800 % 2 == 1, words[1] / 0x400 % 2 == 1, kind,
          if forImp then host - FOR_IMP_HOST else host, words[3], words[4] / 16, subtype)
  }

  function Converted(words: seq<Word16>, bits: nat): Result<seq<Word16>, Error>
    requires |words| == bits / 16
  {
    if bits < 96 || bits % 16 != 0 then Err(NotWholeLeader)
    else if words[0] != NEW_FORMAT then Err(NoFormatFlag)
    else if words[1] / 0x1000 != 0 || words[1] / 0x100 % 4 != 0 then Err(UnsupportedFlags)
    else if words[2] / 0x100 % 0x80 != 7 || words[3] > 63 || words[1] % 0x100 > 15 then Err(NoncanonicalAddress)
    else if words[5] % 16 != 0 || words[5] > bits - 96 then Err(BadDataLength)
    else
      var padding := |words| - 6 - words[5] / 16;
      if words[6..6 + padding] != Zeros(padding) then Err(PaddingNotZero)
      else if !LeaderIn(words).Valid() then Err(HostTooLarge)
      else Ok([First(LeaderIn(words)), Second(LeaderIn(words))] + words[6 + padding..])
  }

  // ----- the two directions -----

  /** The leaders whose type and subtype the fold keeps apart: a regular packet may not
      already have the uncontrolled subtype, and the two kinds without one must have none. */
  predicate KeptApart(kind: nat, subtype: nat) {
    && (kind == REGULAR ==> subtype != UNCONTROLLED)
    && (kind == UNCONTROLLED || kind == NOP ==> subtype == 0)
  }

  lemma LongFields(leader: Short, data: seq<Word16>, padding: nat)
    requires leader.Valid() && |data| < 0x1000
    ensures var words := LongForm(leader, data, padding);
      && words[0] == NEW_FORMAT && words[1] / 0x1000 == 0 && words[1] / 0x100 % 4 == 0
      && words[2] / 0x100 % 0x80 == 7 && words[3] <= 63 && words[1] % 0x100 <= 15
      && words[5] == 16 * |data| && words[6..6 + padding] == Zeros(padding) && words[6 + padding..] == data
  {
    var words := LongForm(leader, data, padding);
    var kind := if leader.kind == UNCONTROLLED then REGULAR else leader.kind;
    Quotient(words[1], 0x100, Bit(leader.trace) * 8 + Bit(leader.octal) * 4, kind);
    Quotient(words[1], 0x1000, 0, words[1]);
    Quotient(words[2], 0x100, Bit(leader.priority) * 0x80 + 7, leader.host + Bit(leader.forImp) * FOR_IMP_HOST);
  }

  lemma LongLeader(leader: Short, data: seq<Word16>, padding: nat)
    requires leader.Valid() && |data| < 0x1000
    ensures var back := LeaderIn(LongForm(leader, data, padding));
      && back.Valid() && (back == leader <==> KeptApart(leader.kind, leader.subtype))
  {
    var words := LongForm(leader, data, padding);
    var (kind, subtype) := if leader.kind == UNCONTROLLED then (REGULAR, UNCONTROLLED)
                           else (leader.kind, leader.subtype);
    var host := leader.host + Bit(leader.forImp) * FOR_IMP_HOST;
    Quotient(words[1], 0x100, Bit(leader.trace) * 8 + Bit(leader.octal) * 4, kind);
    Quotient(words[1], 0x800, Bit(leader.trace), Bit(leader.octal) * 0x400 + kind);
    Quotient(words[1], 0x400, Bit(leader.trace) * 2 + Bit(leader.octal), kind);
    Quotient(words[2], 0x100, Bit(leader.priority) * 0x80 + 7, host);
    Quotient(words[2], 0x8000, Bit(leader.priority), 7 * 0x100 + host);
    Quotient(words[4], 16, leader.identifier, subtype);
  }

  /** A short message through the long form and back is itself exactly when its type and
      subtype are kept apart; it is never refused, whatever the padding. */
  lemma ShortRoundTrip(leader: Short, data: seq<Word16>, padding: nat)
    requires leader.Valid() && |data| < 0x1000
    ensures var words := LongForm(leader, data, padding);
      var back := Converted(words, 16 * |words|);
      && back.Ok? && back.value[2..] == data
      && (back.value == [First(leader), Second(leader)] + data <==> KeptApart(leader.kind, leader.subtype))
  {
    hide LongForm, LeaderIn, First, Second, ShortOf;
    var words := LongForm(leader, data, padding);
    LongLength(leader, data, padding);
    LongFields(leader, data, padding);
    LongLeader(leader, data, padding);
    var back := LeaderIn(words);
    LeaderWords(leader);
    LeaderWords(back);
    var (mine, theirs) := ([First(leader), Second(leader)] + data, [First(back), Second(back)] + data);
    assert mine[0] == First(leader) && mine[1] == Second(leader);
    assert theirs[0] == First(back) && theirs[1] == Second(back) && theirs[2..] == data;
    assert |words| - 6 - words[5] / 16 == padding;
  }

  lemma LongLength(leader: Short, data: seq<Word16>, padding: nat)
    requires leader.Valid() && |data| < 0x1000
    ensures |LongForm(leader, data, padding)| == 6 + padding + |data|
  {
  }

  /** A long message the adapter accepts is the long form of its answer, with its own
      padding, unless it used a type the fold does not produce or a NOP subtype it drops. */
  lemma LongRoundTrip(words: seq<Word16>)
    requires |words| >= 6 && Converted(words, 16 * |words|).Ok?
    ensures var padding := |words| - 6 - words[5] / 16;
      && LeaderIn(words).Valid() && 0 <= padding && |words[6 + padding..]| < 0x1000
      && (LongForm(LeaderIn(words), words[6 + padding..], padding) == words <==>
            words[1] % 0x100 != UNCONTROLLED && (words[1] % 0x100 == NOP ==> words[4] % 16 == 0))
  {
    hide Short.Valid;
    var padding := |words| - 6 - words[5] / 16;
    var data := words[6 + padding..];
    assert LeaderIn(words).Valid();
    FlagBits(words[1]);
    LongWords(words);
    assert words == words[..6] + words[6..6 + padding] + data;
  }

  /** The first six words are a function of the leader fields. */
  lemma LongWords(words: seq<Word16>)
    requires |words| >= 6 && words[1] / 0x1000 == 0 && words[1] / 0x100 % 4 == 0 && words[2] / 0x100 % 0x80 == 7
    requires LeaderIn(words).Valid()
    ensures var leader := LeaderIn(words);
      && words[1] == (Bit(leader.trace) * 8 + Bit(leader.octal) * 4) * 0x100 + words[1] % 0x100
      && words[2] == (Bit(leader.priority) * 0x80 + 7) * 0x100 + leader.host + Bit(leader.forImp) * FOR_IMP_HOST
      && words[3] == leader.imp && words[4] == leader.identifier * 16 + words[4] % 16
  {
    FlagBits(words[1]);
    var flags := words[1] / 0x100;
    assert flags < 16;
    Quotient(words[2], 0x8000, words[2] / 0x100 / 0x80, 7 * 0x100 + words[2] % 0x100);
  }

  // ----- bit by bit -----

  /** Bit `k` of a word, counted from the lowest. */
  predicate BitOf(word: Word16, k: nat)
    requires k < 16
  {
    word / Pow2(k) % 2 == 1
  }

  lemma Pows()
    ensures Pow2(10) == 0x400 && Pow2(11) == 0x800 && Pow2(12) == 0x1000 && Pow2(13) == 0x2000
    ensures Pow2(14) == 0x4000 && Pow2(15) == 0x8000
  {
    Pow2Values();
    Pow2Sum(8, 2);
    Pow2Sum(8, 3);
    Pow2Sum(8, 4);
    Pow2Sum(8, 5);
    Pow2Sum(8, 6);
    Pow2Sum(8, 7);
    assert Pow2(2) == 4 && Pow2(3) == 8 && Pow2(5) == 32 && Pow2(6) == 64 && Pow2(7) == 128;
  }

  /** Where the bits of an accepted long leader go in the short one: the priority bit of the third
      word, the two flags of the second, the host and IMP numbers, the type, and the identifier
      and subtype of the fifth. */
  lemma ConvertedBits(words: seq<Word16>, bits: nat)
    requires |words| == bits / 16 && Converted(words, bits).Ok?
    ensures var short := Converted(words, bits).value;
      var (kind, subtype) := (words[1] % 0x100, words[4] % 16);
      var special := words[2] % 0x100 >= 252;
      && |short| >= 2
      && (BitOf(short[0], 15) <==> BitOf(words[2], 15)) && (BitOf(short[0], 14) <==> special)
      && (BitOf(short[0], 13) <==> BitOf(words[1], 11)) && (BitOf(short[0], 12) <==> BitOf(words[1], 10))
      && short[0] / 0x100 % 16 == (if kind == 0 && subtype == 3 then 3 else kind)
      && short[0] / 0x40 % 4 == words[2] % 0x100 - (if special then 252 else 0)
      && short[0] % 0x40 == words[3] && short[1] / 16 == words[4] / 16
      && short[1] % 16 == (if (kind == 0 && subtype == 3) || kind == 4 then 0 else subtype)
  {
    Pows();
    var leader := LeaderIn(words);
    LeaderWords(leader);
    hide Pow2, First, Second, Zeros;
    FlagPlaces(First(leader));
    FlagPlace(words[2]);
  }

  lemma FlagPlaces(first: Word16)
    ensures (first / 0x1000 / 8 % 2 == 1) == (first / 0x8000 % 2 == 1)
    ensures (first / 0x1000 / 4 % 2 == 1) == (first / 0x4000 % 2 == 1)
    ensures (first / 0x1000 / 2 % 2 == 1) == (first / 0x2000 % 2 == 1)
  {
    DivTwice(first, 0x1000, 8);
    DivTwice(first, 0x1000, 4);
    DivTwice(first, 0x1000, 2);
  }

  lemma FlagPlace(word: Word16)
    ensures (word / 0x8000 == 1) == (word / 0x8000 % 2 == 1)
  {
  }
}
