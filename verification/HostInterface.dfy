/**
 The host-interface transport of ncc/host_interface.py: its datagrams, and the passive ingress
 that puts messages together from packets that may be lost, repeated or renumbered.
 */
module HostInterface {
  import opened Wrappers
  import opened Octets

  const MAGIC: seq<Octet> := [0x48, 0x33, 0x31, 0x36]   // "H316"

  type Word = w: int | 0 <= w <= 0xFFFF

  /** The bits PFLG_FINAL and PFLG_READY of the flag word are its parity and that of its half. */
  datatype Packet = Packet(sequence: nat, flags: Word, words: seq<Word>)

  predicate Valid(p: Packet) { p.sequence <= 0xFFFF_FFFF }

  predicate Final(p: Packet) { p.flags % 2 == 1 }

  predicate Ready(p: Packet) { p.flags / 2 % 2 == 1 }

  datatype Error = CountOverflow | TooShort | BadMagic | NoFlagWord | BadLength | SequenceTooLarge | OutOfOrder

  // ----- datagrams -----

  function WordBytes(words: seq<Word>): (bytes: seq<Octet>)
    ensures |bytes| == 2 * |words|
  {
    if words == [] then [] else WordBytes(words[..|words| - 1]) + FromNat(words[|words| - 1], 2)
  }

  function BytesWords(bytes: seq<Octet>): (words: seq<Word>)
    requires |bytes| % 2 == 0
    ensures 2 * |words| == |bytes|
  {
    if bytes == [] then []
    else
      var n := |bytes| - 2;
      ToNatBound(bytes[n..]);
      Pow2Sixteen();
      BytesWords(bytes[..n]) + [ToNat(bytes[n..])]
  }

  lemma Pow2Sixteen()
    ensures Pow2(16) == 0x1_0000 && Pow2(32) == 0x1_0000_0000
  {
    Pow2Values();
    Pow2Sum(8, 8);
    Pow2Sum(16, 16);
  }

  /** struct.pack refuses a count that does not fit sixteen bits. */
  function ToBytes(p: Packet): Result<seq<Octet>, Error>
    requires Valid(p)
  {
    if 1 + |p.words| > 0xFFFF then Err(CountOverflow)
    else Ok(MAGIC + FromNat(p.sequence, 4) + FromNat(1 + |p.words|, 2) + WordBytes([p.flags] + p.words))
  }

  function FromBytes(value: seq<Octet>): Result<Packet, Error> {
    if |value| < 10 then Err(TooShort)
    else
      var (sequence, count) := (ToNat(value[4..8]), ToNat(value[8..10]));
      if value[..4] != MAGIC then Err(BadMagic)
      else if count == 0 then Err(NoFlagWord)
      else if |value| != 10 + 2 * count then Err(BadLength)
      else
        var words := BytesWords(value[10..]);
        Ok(Packet(sequence, words[0], words[1..]))
  }

  lemma {:induction false} WordsInvert(words: seq<Word>)
    ensures BytesWords(WordBytes(words)) == words
  {
    hide FromNat, ToNat, Pow2;
    if words != [] {
      var (rest, last) := (words[..|words| - 1], words[|words| - 1]);
      WordsInvert(rest);
      Pow2Sixteen();
      ToNatInverts(last, 2);
      var bytes := WordBytes(words);
      assert bytes[..|bytes| - 2] == WordBytes(rest) && bytes[|bytes| - 2..] == FromNat(last, 2);
    }
  }

  lemma {:induction false} BytesInvert(bytes: seq<Octet>)
    requires |bytes| % 2 == 0
    ensures WordBytes(BytesWords(bytes)) == bytes
  {
    hide FromNat, ToNat, Pow2, WordBytes, BytesWords;
    if bytes == [] {
      NoBytes();
    } else {
      var n := |bytes| - 2;
      BytesInvert(bytes[..n]);
      BytesUnfold(bytes);
      FromNatInverts(bytes[n..]);
      assert bytes == bytes[..n] + bytes[n..];
    }
  }

  lemma NoBytes()
    ensures WordBytes([]) == [] && BytesWords([]) == []
  {
  }

  lemma BytesUnfold(bytes: seq<Octet>)
    requires |bytes| % 2 == 0 && bytes != []
    ensures var n := |bytes| - 2;
      WordBytes(BytesWords(bytes)) == WordBytes(BytesWords(bytes[..n])) + FromNat(ToNat(bytes[n..]), 2)
  {
    hide FromNat, ToNat, Pow2;
    var (n, words) := (|bytes| - 2, BytesWords(bytes));
    assert words[..|words| - 1] == BytesWords(bytes[..n]);
  }

  /** Decoding undoes encoding for every packet of at most 65534 words, and longer ones cannot
      be encoded. */
  lemma PacketRoundTrip(p: Packet)
    requires Valid(p)
    ensures ToBytes(p).Ok? <==> |p.words| <= 65534
    ensures ToBytes(p).Ok? ==> FromBytes(ToBytes(p).value) == Ok(p)
  {
    hide FromNat, ToNat, Pow2, WordBytes, BytesWords;
    if ToBytes(p).Ok? {
      var value := ToBytes(p).value;
      var count := 1 + |p.words|;
      Pow2Sixteen();
      ToNatInverts(p.sequence, 4);
      ToNatInverts(count, 2);
      assert value[..4] == MAGIC && value[4..8] == FromNat(p.sequence, 4) && value[8..10] == FromNat(count, 2);
      assert value[10..] == WordBytes([p.flags] + p.words);
      WordsInvert([p.flags] + p.words);
    }
  }

  /** What is decoded is the only datagram that encodes the packet: nothing is ignored. */
  lemma DatagramRoundTrip(value: seq<Octet>)
    requires FromBytes(value).Ok?
    ensures Valid(FromBytes(value).value) && ToBytes(FromBytes(value).value) == Ok(value)
  {
    hide FromNat, ToNat, Pow2, WordBytes, BytesWords;
    var p := FromBytes(value).value;
    ToNatBound(value[4..8]);
    ToNatBound(value[8..10]);
    Pow2Sixteen();
    FromNatInverts(value[4..8]);
    FromNatInverts(value[8..10]);
    BytesInvert(value[10..]);
    assert [p.flags] + p.words == BytesWords(value[10..]);
    assert value == value[..4] + value[4..8] + value[8..10] + value[10..];
  }

  // ----- the octets of a datagram -----

  lemma {:induction false} WordBytesMean(words: seq<Word>, i: nat)
    requires i < |words|
    ensures WordBytes(words)[2 * i] == words[i] / 0x100 && WordBytes(words)[2 * i + 1] == words[i] % 0x100
  {
    var n := |words| - 1;
    if i < n {
      WordBytesMean(words[..n], i);
    } else {
      TwoOctets(words[n]);
    }
  }

  lemma TwoOctets(w: Word)
    ensures FromNat(w, 2) == [w / 0x100, w % 0x100]
  {
    assert FromNat(w / 0x100, 1) == FromNat(w / 0x100 / 0x100, 0) + [w / 0x100 % 0x100];
  }

  lemma FourOctets(v: nat)
    requires v <= 0xFFFF_FFFF
    ensures FromNat(v, 4) == [v / 0x100_0000, v / 0x1_0000 % 0x100, v / 0x100 % 0x100, v % 0x100]
  {
    var (a, b) := (v / 0x100, v / 0x100 / 0x100);
    assert FromNat(v, 4) == FromNat(a, 3) + [v % 0x100];
    assert FromNat(a, 3) == FromNat(b, 2) + [a % 0x100];
    assert b == v / 0x1_0000 && b / 0x100 == v / 0x100_0000;
    TwoOctets(b);
  }

  /** A datagram, octet by octet: the four letters, then the number, the count of words and the
      words themselves, flags first, each with its high octet first. */
  lemma DatagramMeans(p: Packet)
    requires Valid(p) && ToBytes(p).Ok?
    ensures var d := ToBytes(p).value;
      && |d| == 12 + 2 * |p.words| && d[0] == 0x48 && d[1] == 0x33 && d[2] == 0x31 && d[3] == 0x36
      && d[4] == p.sequence / 0x100_0000 && d[5] == p.sequence / 0x1_0000 % 0x100
      && d[6] == p.sequence / 0x100 % 0x100 && d[7] == p.sequence % 0x100
      && d[8] == (1 + |p.words|) / 0x100 && d[9] == (1 + |p.words|) % 0x100
      && d[10] == p.flags / 0x100 && d[11] == p.flags % 0x100
      && forall i :: 0 <= i < |p.words| ==> PairIs(d, 12 + 2 * i, p.words[i])
  {
    var (d, all) := (ToBytes(p).value, [p.flags] + p.words);
    FourOctets(p.sequence);
    TwoOctets(1 + |p.words|);
    hide FromNat, WordBytes;
    assert d[10..] == WordBytes(all);
    WordBytesMean(all, 0);
    assert d[10] == d[10..][0] && d[11] == d[10..][1];
    forall i | 0 <= i < |p.words| ensures PairIs(d, 12 + 2 * i, p.words[i]) {
      WordBytesMean(all, i + 1);
      assert d[12 + 2 * i] == d[10..][2 * (i + 1)] && d[12 + 2 * i + 1] == d[10..][2 * (i + 1) + 1];
    }
  }

  predicate PairIs(d: seq<Octet>, at: nat, w: Word)
    requires at + 1 < |d|
  {
    d[at] == w / 0x100 && d[at + 1] == w % 0x100
  }
}
