/**
 Files of one JSON record a line.  Every reader in the repository splits the text, drops
 an unterminated last piece, and reads the rest; here a record is the text of its line.
 */
module JsonLines {
  import opened Wrappers

  predicate OneLine(line: string) { '\n' !in line }

  /** The file a recorder has written. */
  function Text(lines: seq<string>): string {
    if lines == [] then "" else lines[0] + "\n" + Text(lines[1..])
  }

  function Break(text: string): (n: nat)
    ensures n <= |text|
    ensures n < |text| ==> text[n] == '\n'
    ensures '\n' !in text[..n]
  {
    if text == "" || text[0] == '\n' then 0 else 1 + Break(text[1..])
  }

  function SplitLines(text: string): seq<string>
    decreases |text|
  {
    if text == "" then []
    else var n := Break(text);
      [text[..n]] + if n == |text| then [] else SplitLines(text[n + 1..])
  }

  /** The complete lines, and whether an interrupted final one was dropped. */
  function ReadLines(text: string): (r: (seq<string>, bool)) {
    var lines := SplitLines(text);
    var incomplete := text != "" && text[|text| - 1] != '\n';
    (if incomplete && lines != [] then lines[..|lines| - 1] else lines, incomplete)
  }

  /** How many whole lines fit in the first k characters. */
  function WholeLines(lines: seq<string>, k: nat): (m: nat)
    ensures m <= |lines|
  {
    if lines == [] || k < |lines[0]| + 1 then 0 else 1 + WholeLines(lines[1..], k - |lines[0]| - 1)
  }

  lemma BreakAt(line: string, rest: string)
    requires OneLine(line)
    ensures Break(line + "\n" + rest) == |line|
  {
    if line != "" {
      BreakAt(line[1..], rest);
      assert (line + "\n" + rest)[1..] == line[1..] + "\n" + rest;
    }
  }

  lemma ReadFragment(text: string)
    requires OneLine(text)
    ensures ReadLines(text) == ([], text != "")
  {
  }

  /** Cut a recorder's file anywhere: the reader sees exactly the records written whole,
      and reports a remainder exactly when the cut is inside a record. */
  lemma {:induction false} CutLaw(lines: seq<string>, k: nat)
    requires forall line :: line in lines ==> OneLine(line)
    requires k <= |Text(lines)|
    ensures var m := WholeLines(lines, k);
      && |Text(lines[..m])| <= k
      && (m < |lines| ==> k < |Text(lines[..m + 1])|)
      && ReadLines(Text(lines)[..k]) == (lines[..m], |Text(lines[..m])| < k)
  {
    hide ReadLines;
    var text := Text(lines)[..k];
    if lines == [] {
      ReadFragment("");
    } else if k < |lines[0]| + 1 {
      assert OneLine(lines[0]) && text == lines[0][..k];
      ReadFragment(text);
      assert lines[..1][0] == lines[0] && lines[..1][1..] == [];
    } else {
      var rest := k - |lines[0]| - 1;
      CutLaw(lines[1..], rest);
      var m := WholeLines(lines[1..], rest);
      TextSplit(lines, m + 1);
      if m + 1 < |lines| { TextSplit(lines, m + 2); }
      var tail := Text(lines[1..])[..rest];
      assert text == lines[0] + "\n" + tail;
      ReadFirst(lines[0], tail);
      assert lines[..m + 1] == [lines[0]] + lines[1..][..m];
    }
  }

  lemma ReadFirst(line: string, tail: string)
    requires OneLine(line)
    ensures ReadLines(line + "\n" + tail) == ([line] + ReadLines(tail).0, ReadLines(tail).1)
  {
    hide SplitLines;
    var text := line + "\n" + tail;
    SplitFirst(line, tail);
    SplitNonEmpty(tail);
    assert SplitLines("") == [] by { SplitNonEmpty(""); }
    if tail != "" {
      assert text[|text| - 1] == tail[|tail| - 1];
      assert ([line] + SplitLines(tail))[..|SplitLines(tail)|] == [line] + SplitLines(tail)[..|SplitLines(tail)| - 1];
    } else {
      assert [line] + [] == [line];
    }
  }

  lemma SplitFirst(line: string, tail: string)
    requires OneLine(line)
    ensures SplitLines(line + "\n" + tail) == [line] + SplitLines(tail)
  {
    var text := line + "\n" + tail;
    BreakAt(line, tail);
    assert text[..|line|] == line && text[|line| + 1..] == tail;
  }

  lemma SplitNonEmpty(text: string)
    ensures text != "" <==> SplitLines(text) != []
  {
  }

  lemma TextSplit(lines: seq<string>, m: nat)
    requires 0 < m <= |lines|
    ensures Text(lines[..m]) == lines[0] + "\n" + Text(lines[1..][..m - 1])
  {
    assert lines[..m][1..] == lines[1..][..m - 1];
  }

  // ----- records -----

  /** Writing a record as one line of JSON and parsing that line gives the record back. */
  ghost predicate Codec<R(!new)>(encode: R -> string, decode: string -> Option<R>) {
    forall r :: OneLine(encode(r)) && decode(encode(r)) == Some(r)
  }

  function Encoded<R>(encode: R -> string, records: seq<R>): (lines: seq<string>)
    ensures |lines| == |records| && forall i :: 0 <= i < |records| ==> lines[i] == encode(records[i])
  {
    if records == [] then [] else Encoded(encode, records[..|records| - 1]) + [encode(records[|records| - 1])]
  }

  /** Every line parsed, or None if one of them is not a record. */
  function Decoded<R>(decode: string -> Option<R>, lines: seq<string>): Option<seq<R>> {
    if lines == [] then Some([])
    else
      match Decoded(decode, lines[..|lines| - 1])
      case None => None
      case Some(rest) =>
        match decode(lines[|lines| - 1])
        case None => None
        case Some(r) => Some(rest + [r])
  }

  lemma {:induction false} DecodeEncoded<R(!new)>(encode: R -> string, decode: string -> Option<R>, records: seq<R>)
    requires Codec(encode, decode)
    ensures Decoded(decode, Encoded(encode, records)) == Some(records)
  {
    if records != [] {
      var rest := records[..|records| - 1];
      DecodeEncoded(encode, decode, rest);
      assert Encoded(encode, records)[..|rest|] == Encoded(encode, rest);
      assert decode(encode(records[|rest|])) == Some(records[|rest|]);
      assert rest + [records[|rest|]] == records;
    }
  }

  /** The records a reader gets from a recorder's file cut after `k` characters. */
  function ReadCut<R>(encode: R -> string, decode: string -> Option<R>, records: seq<R>, k: nat): Option<seq<R>>
    requires k <= |Text(Encoded(encode, records))|
  {
    Decoded(decode, ReadLines(Text(Encoded(encode, records))[..k]).0)
  }

  /** They are exactly the records that were written whole. */
  lemma CutRecords<R(!new)>(encode: R -> string, decode: string -> Option<R>, records: seq<R>, k: nat)
    requires Codec(encode, decode) && k <= |Text(Encoded(encode, records))|
    ensures ReadCut(encode, decode, records, k) == Some(records[..WholeLines(Encoded(encode, records), k)])
  {
    hide Text, ReadLines, WholeLines, Decoded;
    var lines := Encoded(encode, records);
    var m := WholeLines(lines, k);
    forall line | line in lines ensures OneLine(line) {
      var i :| 0 <= i < |lines| && lines[i] == line;
      assert line == encode(records[i]);
    }
    CutLaw(lines, k);
    assert lines[..m] == Encoded(encode, records[..m]);
    DecodeEncoded(encode, decode, records[..m]);
  }
}
