/**
 The two byte profiles of ncc/historical_terminal.py: what guest output may do to the
 operator's screen, and which operator bytes may reach the guest.
 */
module Teletype {
  import opened Octets

  const CR: Octet := 0x0D
  const LF: Octet := 0x0A
  const BACKSPACE: Octet := 0x08
  const DELETE: Octet := 0x7F
  const LOCAL_EXIT: Octet := 0x1D
  const LOCAL_CUT: Octet := 0x1E
  const SIMULATOR_WRU: Octet := 0x1C

  // ----- rendering -----

  function HexDigit(n: int): Octet
    requires 0 <= n < 16
  {
    if n < 10 then 0x30 + n else 0x61 + (n - 10)
  }

  predicate Printable(b: Octet) { b == 0x07 || b == 0x08 || b == 0x09 || 0x20 <= b <= 0x7E }

  function Glyph(b: Octet): seq<Octet> {
    if Printable(b) then [b] else [0x5C, 0x78, HexDigit(b / 16), HexDigit(b % 16)]
  }

  /** The picture of a whole output: every carriage return, line feed or pair of them in
      that order is one line break, and everything unprintable is spelled out. */
  function Picture(output: seq<Octet>): seq<Octet> {
    if output == [] then []
    else if output[0] == CR && |output| > 1 && output[1] == LF then [LF] + Picture(output[2..])
    else if output[0] == CR || output[0] == LF then [LF] + Picture(output[1..])
    else Glyph(output[0]) + Picture(output[1..])
  }

  lemma {:induction false} PictureIsSafe(output: seq<Octet>)
    ensures forall i :: 0 <= i < |Picture(output)| ==> Picture(output)[i] == LF || Printable(Picture(output)[i])
  {
    if output != [] {
      if output[0] == CR && |output| > 1 && output[1] == LF {
        PictureIsSafe(output[2..]);
      } else {
        PictureIsSafe(output[1..]);
      }
    }
  }

  /** One more byte: a line feed right after a carriage return adds nothing. */
  lemma {:induction false} PictureGrows(output: seq<Octet>, b: Octet)
    ensures Picture(output + [b]) == Picture(output) +
      if b == LF && output != [] && output[|output| - 1] == CR then []
      else if b == CR || b == LF then [LF]
      else Glyph(b)
  {
    hide Picture, Glyph;
    var grown := output + [b];
    PictureUnfold(grown);
    PictureUnfold(output);
    PictureUnfold([b]);
    PictureUnfold([]);
    if output == [] {
      assert grown == [b];
    } else if output[0] == CR && |output| > 1 && output[1] == LF {
      PictureGrows(output[2..], b);
      assert grown[2..] == output[2..] + [b];
    } else if output == [CR] && b == LF {
      assert grown[2..] == [] && output[1..] == [];
    } else {
      PictureGrows(output[1..], b);
      assert grown[1..] == output[1..] + [b];
    }
  }

  lemma PictureUnfold(output: seq<Octet>)
    ensures Picture(output) ==
      if output == [] then []
      else if output[0] == CR && |output| > 1 && output[1] == LF then [LF] + Picture(output[2..])
      else if output[0] == CR || output[0] == LF then [LF] + Picture(output[1..])
      else Glyph(output[0]) + Picture(output[1..])
  {
  }

  class SafeTeletypeRenderer {
    var suppressLineFeed: bool
    ghost var output: seq<Octet>

    ghost predicate Valid()
      reads this
    {
      suppressLineFeed == (output != [] && output[|output| - 1] == CR)
    }

    constructor ()
      ensures Valid() && output == []
    {
      suppressLineFeed, output := false, [];
    }

    /** However the output is cut into calls, the pieces make up its whole picture. */
    method Render(data: seq<Octet>) returns (rendered: seq<Octet>)
      requires Valid()
      modifies this
      ensures Valid() && output == old(output) + data
      ensures Picture(old(output)) + rendered == Picture(output)
    {
      hide Picture, Glyph;
      rendered := [];
      for i := 0 to |data|
        invariant Valid() && output == old(output) + data[..i]
        invariant Picture(old(output)) + rendered == Picture(output)
      {
        var byte := data[i];
        PictureGrows(output, byte);
        assert data[..i + 1] == data[..i] + [byte];
        output := output + [byte];
        if byte == CR {
          rendered := rendered + [LF];
          suppressLineFeed := true;
        } else if byte == LF {
          if !suppressLineFeed {
            rendered := rendered + [LF];
          }
          suppressLineFeed := false;
        } else {
          suppressLineFeed := false;
          rendered := rendered + Glyph(byte);
        }
      }
    }
  }

  // ----- operator input -----

  datatype Prepared = Prepared(forwarded: seq<Octet>, exitRequested: bool, cutRequested: bool,
                               blockedWru: nat, rejectedHighBit: nat)

  predicate LocalControl(b: Octet, cutEnabled: bool) { b == LOCAL_EXIT || (cutEnabled && b == LOCAL_CUT) }

  /** Bytes before the first one the controller keeps for itself. */
  function Taken(data: seq<Octet>, cutEnabled: bool): (n: nat)
    ensures n <= |data|
    ensures forall i :: 0 <= i < n ==> !LocalControl(data[i], cutEnabled)
    ensures n < |data| ==> LocalControl(data[n], cutEnabled)
  {
    if data == [] || LocalControl(data[0], cutEnabled) then 0 else 1 + Taken(data[1..], cutEnabled)
  }

  predicate Blocked(b: Octet) { b == SIMULATOR_WRU }

  predicate Rejected(b: Octet) { b > 0x7F }

  /** The historical key for a modern one. */
  function Key(b: Octet): Octet { if b == LF then CR else if b == DELETE then BACKSPACE else b }

  function Keys(data: seq<Octet>): seq<Octet> {
    if data == [] then []
    else var (rest, last) := (data[..|data| - 1], data[|data| - 1]);
      if Blocked(last) || Rejected(last) then Keys(rest) else Keys(rest) + [Key(last)]
  }

  function Count(data: seq<Octet>, p: Octet -> bool): nat {
    if data == [] then 0
    else Count(data[..|data| - 1], p) + if p(data[|data| - 1]) then 1 else 0
  }

  predicate ForGuest(b: Octet) {
    b <= 0x7F && b != SIMULATOR_WRU && b != LOCAL_EXIT && b != LF && b != DELETE
  }

  /** Nothing reserved reaches the guest, and every byte taken is forwarded, blocked or rejected. */
  lemma {:induction false} KeysAreForGuest(data: seq<Octet>, cutEnabled: bool)
    requires forall i :: 0 <= i < |data| ==> !LocalControl(data[i], cutEnabled)
    ensures forall b :: b in Keys(data) ==> ForGuest(b) && !(cutEnabled && b == LOCAL_CUT)
    ensures |Keys(data)| + Count(data, Blocked) + Count(data, Rejected) == |data|
  {
    if data != [] {
      KeysAreForGuest(data[..|data| - 1], cutEnabled);
    }
  }

  /** What becomes of a byte that is kept: a line feed turns into a carriage return, a delete into
      a backspace. */
  predicate Becomes(byte: Octet, key: Octet) { key == if byte == 10 then 13 else if byte == 127 then 8 else byte }

  predicate KeptByte(byte: Octet) { byte < 128 && byte != 28 }

  lemma KeysUnfold(data: seq<Octet>)
    requires data != []
    ensures var (rest, last) := (Keys(data[..|data| - 1]), data[|data| - 1]);
      if KeptByte(last) then |Keys(data)| == |rest| + 1 && Keys(data)[..|rest|] == rest
        && Becomes(last, Keys(data)[|rest|])
      else Keys(data) == rest
  {
    assert Keys(data[..|data| - 1]) + [] == Keys(data[..|data| - 1]);
  }

  /** Which bytes are kept, and what the two keys that have another code on the old machine
      become: a line feed a carriage return, a delete a backspace. */
  lemma {:induction false} KeysMean(data: seq<Octet>) returns (places: seq<nat>)
    ensures |places| == |Keys(data)| && forall n, m :: 0 <= n < m < |places| ==> places[n] < places[m]
    ensures forall i :: 0 <= i < |data| ==> (i in places <==> KeptByte(data[i]))
    ensures forall n :: 0 <= n < |places| ==> places[n] < |data| && Becomes(data[places[n]], Keys(data)[n])
  {
    hide Keys, KeptByte, Becomes;
    if data == [] {
      places := [];
      NoKeys();
    } else {
      var n := |data| - 1;
      places := KeysMean(data[..n]);
      KeysUnfold(data);
      if KeptByte(data[n]) {
        places := places + [n];
      }
      forall i | 0 <= i < |data| ensures i in places <==> KeptByte(data[i]) {
        if i < n {
          assert data[..n][i] == data[i];
        }
      }
    }
  }

  lemma NoKeys()
    ensures Keys([]) == []
  {
  }

  /** The value of a hexadecimal digit, '0' to '9' or 'a' to 'f'. */
  function DigitValue(d: Octet): int { if d < 0x61 then d - 0x30 else d - 0x61 + 10 }

  /** A byte is shown as itself if it rings, moves or prints, and otherwise as a backslash, an x
      and its value in two hexadecimal digits, the high one first. */
  lemma GlyphMeans(b: Octet)
    ensures b in {7, 8, 9} || 32 <= b <= 126 ==> Glyph(b) == [b]
    ensures !(b in {7, 8, 9} || 32 <= b <= 126) ==>
      var g := Glyph(b);
      |g| == 4 && g[0] == 92 && g[1] == 120 && 16 * DigitValue(g[2]) + DigitValue(g[3]) == b
  {
    assert b == 16 * (b / 16) + b % 16;
  }

  method PrepareTerminalInput(data: seq<Octet>, cutEnabled: bool) returns (prepared: Prepared)
    ensures var taken := data[..Taken(data, cutEnabled)];
      && prepared.forwarded == Keys(taken)
      && prepared.blockedWru == Count(taken, Blocked)
      && prepared.rejectedHighBit == Count(taken, Rejected)
      && (prepared.exitRequested <==> |taken| < |data| && data[|taken|] == LOCAL_EXIT)
      && (prepared.cutRequested <==> |taken| < |data| && data[|taken|] == LOCAL_CUT)
      && |prepared.forwarded| + prepared.blockedWru + prepared.rejectedHighBit == |taken|
    ensures forall b :: b in prepared.forwarded ==> ForGuest(b) && !(cutEnabled && b == LOCAL_CUT)
  {
    var forwarded, blockedWru, rejected := [], 0, 0;
    var exitRequested, cutRequested := false, false;
    ghost var taken := Taken(data, cutEnabled);
    var i := 0;
    while i < |data| && !exitRequested && !cutRequested
      invariant 0 <= i <= taken <= |data|
      invariant forwarded == Keys(data[..i])
      invariant blockedWru == Count(data[..i], Blocked) && rejected == Count(data[..i], Rejected)
      invariant exitRequested || cutRequested ==> i == taken < |data|
      invariant exitRequested <==> (exitRequested || cutRequested) && data[i] == LOCAL_EXIT
      invariant cutRequested <==> (exitRequested || cutRequested) && data[i] == LOCAL_CUT
      decreases |data| - i, !exitRequested && !cutRequested
    {
      var byte := data[i];
      if byte == LOCAL_EXIT {
        exitRequested := true;
      } else if cutEnabled && byte == LOCAL_CUT {
        cutRequested := true;
      } else {
        assert data[..i + 1][..i] == data[..i];
        if byte == SIMULATOR_WRU {
          blockedWru := blockedWru + 1;
        } else if byte > 0x7F {
          rejected := rejected + 1;
        } else if byte == LF {
          forwarded := forwarded + [CR];
        } else if byte == DELETE {
          forwarded := forwarded + [BACKSPACE];
        } else {
          forwarded := forwarded + [byte];
        }
        i := i + 1;
      }
    }
    KeysAreForGuest(data[..taken], cutEnabled);
    prepared := Prepared(forwarded, exitRequested, cutRequested, blockedWru, rejected);
  }
}
