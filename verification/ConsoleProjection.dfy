/**
 The online console filter of ncc/historical_terminal.py.  It hides two kinds of
 instrumentation line while bytes and screen flushes arrive in any order, so it must
 hold back bytes that could still turn out to start such a line.
 */
module ConsoleProjection {
  import opened Octets

  const LF: Octet := 0x0A
  const STAR: Octet := 0x2A
  const SPACE: Octet := 0x20
  const PROMPT: seq<Octet> := [STAR, SPACE]
  // "SKTRACE " and "PBTRACE "
  const SK_NOISE: seq<Octet> := [0x53, 0x4B, 0x54, 0x52, 0x41, 0x43, 0x45, SPACE]
  const PB_NOISE: seq<Octet> := [0x50, 0x42, 0x54, 0x52, 0x41, 0x43, 0x45, SPACE]
  const NOISE: seq<seq<Octet>> := [SK_NOISE, PB_NOISE]
  const PROMPT_NOISE: seq<seq<Octet>> := [PROMPT + SK_NOISE, PROMPT + PB_NOISE]

  // ----- the reference: one line at a time, on the whole input -----

  predicate IsNoise(line: seq<Octet>) { SK_NOISE <= line || PB_NOISE <= line }

  predicate IsPromptNoise(line: seq<Octet>) { PROMPT + SK_NOISE <= line || PROMPT + PB_NOISE <= line }

  /** A noise line disappears with its line feed; a prompt-noise line leaves the prompt. */
  function FilterLine(line: seq<Octet>): seq<Octet> {
    if IsNoise(line) then [] else if IsPromptNoise(line) then PROMPT else line
  }

  function FirstLine(input: seq<Octet>): (n: nat)
    ensures n <= |input|
    ensures input != [] ==> 0 < n
    ensures LF !in input ==> n == |input|
  {
    if input == [] then 0 else if input[0] == LF then 1 else 1 + FirstLine(input[1..])
  }

  function Filtered(input: seq<Octet>): seq<Octet> {
    if input == [] then []
    else var n := FirstLine(input); FilterLine(input[..n]) + Filtered(input[n..])
  }

  // ----- what an observer of the filter sees: bytes, and unforced flushes between them -----

  datatype Atom = Byte(octet: Octet) | Flush

  function Atoms(data: seq<Octet>): (r: seq<Atom>)
    ensures |r| == |data|
    ensures forall i :: 0 <= i < |r| ==> r[i] == Byte(data[i])
  {
    seq(|data|, i requires 0 <= i < |data| => Byte(data[i]))
  }

  function Bytes(history: seq<Atom>): seq<Octet> {
    if history == [] then []
    else var (rest, last) := (history[..|history| - 1], history[|history| - 1]);
      Bytes(rest) + if last.Byte? then [last.octet] else []
  }

  /** The atoms after the last line feed. */
  function OpenLine(history: seq<Atom>): seq<Atom> {
    if history == [] then []
    else var (rest, last) := (history[..|history| - 1], history[|history| - 1]);
      if last == Byte(LF) then [] else OpenLine(rest) + [last]
  }

  /** Whether an unforced flush fell when exactly n bytes of this line had arrived. */
  predicate FlushedAt(line: seq<Atom>, n: nat) {
    line != [] &&
    var (rest, last) := (line[..|line| - 1], line[|line| - 1]);
    FlushedAt(rest, n) || (last.Flush? && |Bytes(rest)| == n)
  }

  /** The only lines not shown as the reference says: a flush put up the lone star, and
      none put up the space before the instrumentation text completed. */
  predicate LosesSpace(line: seq<Atom>) {
    IsPromptNoise(Bytes(line)) && FlushedAt(line, 1) && !FlushedAt(line, 2)
  }

  function LineShown(line: seq<Atom>): seq<Octet> {
    if LosesSpace(line) then [STAR] else FilterLine(Bytes(line))
  }

  predicate Hidden(line: seq<Octet>) { IsNoise(line) || IsPromptNoise(line) }

  /** A line that more bytes could still make a hidden one. */
  predicate Undecided(line: seq<Octet>) {
    !Hidden(line) &&
    (line <= SK_NOISE || line <= PB_NOISE || line <= PROMPT + SK_NOISE || line <= PROMPT + PB_NOISE)
  }

  /** The part of an undecided line that flushes have put on the screen. */
  function PromptShown(line: seq<Atom>): seq<Octet> {
    var text := Bytes(line);
    if PROMPT <= text && FlushedAt(line, 2) then PROMPT
    else if [STAR] <= text && FlushedAt(line, 1) then [STAR]
    else []
  }

  function OpenShown(line: seq<Atom>): seq<Octet> {
    if Undecided(Bytes(line)) then PromptShown(line) else LineShown(line)
  }

  function ClosedShown(history: seq<Atom>): seq<Octet> {
    if history == [] then []
    else var (rest, last) := (history[..|history| - 1], history[|history| - 1]);
      if last == Byte(LF) then ClosedShown(rest) + LineShown(OpenLine(rest) + [last]) else ClosedShown(rest)
  }

  /** Everything on the screen after a history of bytes and unforced flushes. */
  function Shown(history: seq<Atom>): seq<Octet> {
    ClosedShown(history) + OpenShown(OpenLine(history))
  }

  /** The same after the closing forced flush. */
  function FinallyShown(history: seq<Atom>): seq<Octet> {
    ClosedShown(history) + LineShown(OpenLine(history))
  }

  // ----- how one more byte changes a line -----

  lemma OneMore(text: seq<Octet>, byte: Octet, noise: seq<Octet>)
    ensures noise <= text + [byte] <==> noise <= text || noise == text + [byte]
    ensures text + [byte] <= noise ==> text <= noise && text != noise
  {
    if noise <= text + [byte] {
      if |noise| <= |text| {
        assert (text + [byte])[..|noise|] == text[..|noise|];
      } else {
        assert (text + [byte])[..|noise|] == text + [byte];
      }
    }
    if noise <= text {
      assert (text + [byte])[..|noise|] == text[..|noise|];
    }
    if text + [byte] <= noise {
      assert noise[..|text|] == noise[..|text| + 1][..|text|] == text;
    }
  }

  predicate Completes(text: seq<Octet>) {
    text == SK_NOISE || text == PB_NOISE || text == PROMPT + SK_NOISE || text == PROMPT + PB_NOISE
  }

  predicate Stem(text: seq<Octet>) {
    text <= SK_NOISE || text <= PB_NOISE || text <= PROMPT + SK_NOISE || text <= PROMPT + PB_NOISE
  }

  lemma Grown(text: seq<Octet>, byte: Octet)
    ensures IsNoise(text + [byte]) <==> IsNoise(text) || text + [byte] == SK_NOISE || text + [byte] == PB_NOISE
    ensures IsPromptNoise(text + [byte]) <==>
            IsPromptNoise(text) || text + [byte] == PROMPT + SK_NOISE || text + [byte] == PROMPT + PB_NOISE
    ensures Stem(text + [byte]) ==> Stem(text)
  {
    OneMore(text, byte, SK_NOISE);
    OneMore(text, byte, PB_NOISE);
    OneMore(text, byte, PROMPT + SK_NOISE);
    OneMore(text, byte, PROMPT + PB_NOISE);
  }

  // ----- the candidates left once a flush has shown part of a prompt -----

  function Candidates(visible: seq<Octet>): seq<seq<Octet>> {
    if visible == [STAR] then [[SPACE] + SK_NOISE, [SPACE] + PB_NOISE]
    else if visible == PROMPT then NOISE
    else NOISE + PROMPT_NOISE
  }

  predicate MayComplete(visible: seq<Octet>, pending: seq<Octet>) {
    exists i | 0 <= i < |Candidates(visible)| :: pending <= Candidates(visible)[i]
  }

  lemma Cancel(head: seq<Octet>, a: seq<Octet>, b: seq<Octet>)
    ensures head + a == head + b <==> a == b
    ensures head + a <= head + b <==> a <= b
  {
    assert a == (head + a)[|head|..] && b == (head + b)[|head|..];
    if head + a <= head + b {
      assert (head + b)[..|head + a|] == head + b[..|a|];
    }
    if a <= b {
      assert (head + b)[..|head + a|] == head + b[..|a|];
    }
  }

  lemma CandidateMeaning(visible: seq<Octet>, pending: seq<Octet>)
    requires visible == [STAR] || visible == PROMPT
    ensures pending in Candidates(visible) <==>
            visible + pending == PROMPT + SK_NOISE || visible + pending == PROMPT + PB_NOISE
    ensures MayComplete(visible, pending) <==>
            visible + pending <= PROMPT + SK_NOISE || visible + pending <= PROMPT + PB_NOISE
  {
    var c := Candidates(visible);
    assert |c| == 2;
    assert visible + c[0] == PROMPT + SK_NOISE && visible + c[1] == PROMPT + PB_NOISE;
    Cancel(visible, pending, c[0]);
    Cancel(visible, pending, c[1]);
  }

  lemma FreshCandidateMeaning(pending: seq<Octet>)
    ensures pending in Candidates([]) <==> Completes(pending)
    ensures MayComplete([], pending) <==> Stem(pending)
  {
    var c := Candidates([]);
    assert |c| == 4 && c[0] == SK_NOISE && c[1] == PB_NOISE && c[2] == PROMPT + SK_NOISE && c[3] == PROMPT + PB_NOISE;
  }

  // ----- how one more atom changes the open line and the screen -----

  lemma NoiseStarts(text: seq<Octet>)
    ensures IsNoise(text) ==> |text| >= 8 && text[0] != STAR
    ensures IsPromptNoise(text) ==> |text| >= 10 && text[0] == STAR && text[1] == SPACE
  {
    assert (PROMPT + SK_NOISE)[0] == STAR && (PROMPT + SK_NOISE)[1] == SPACE;
    assert (PROMPT + PB_NOISE)[0] == STAR && (PROMPT + PB_NOISE)[1] == SPACE;
  }

  lemma FlushedWithin(line: seq<Atom>, n: nat)
    requires FlushedAt(line, n)
    ensures n <= |Bytes(line)|
  {
  }

  ghost predicate NextLine(line: seq<Atom>, byte: Octet) {
    && Bytes(line + [Byte(byte)]) == Bytes(line) + [byte]
    && FlushedAt(line + [Byte(byte)], 1) == FlushedAt(line, 1)
    && FlushedAt(line + [Byte(byte)], 2) == FlushedAt(line, 2)
  }

  lemma AppendByte(history: seq<Atom>, byte: Octet)
    ensures var after := history + [Byte(byte)];
      var line := OpenLine(history) + [Byte(byte)];
      && NextLine(OpenLine(history), byte)
      && OpenLine(after) == (if byte == LF then [] else line)
      && ClosedShown(after) == if byte == LF then ClosedShown(history) + LineShown(line) else ClosedShown(history)
  {
    var after := history + [Byte(byte)];
    var line := OpenLine(history) + [Byte(byte)];
    assert after[..|after| - 1] == history;
    assert line[..|line| - 1] == OpenLine(history);
  }

  lemma HiddenStays(line: seq<Atom>, byte: Octet)
    requires Hidden(Bytes(line))
    requires NextLine(line, byte)
    ensures Hidden(Bytes(line + [Byte(byte)]))
    ensures OpenShown(line + [Byte(byte)]) == LineShown(line + [Byte(byte)]) == OpenShown(line)
  {
    Grown(Bytes(line), byte);
    NoiseStarts(Bytes(line));
    NoiseStarts(Bytes(line) + [byte]);
  }

  lemma DecidedStays(line: seq<Atom>, byte: Octet)
    requires !Hidden(Bytes(line)) && !Undecided(Bytes(line))
    requires NextLine(line, byte)
    ensures !Hidden(Bytes(line + [Byte(byte)])) && !Undecided(Bytes(line + [Byte(byte)]))
    ensures OpenShown(line + [Byte(byte)]) == LineShown(line + [Byte(byte)]) == OpenShown(line) + [byte]
  {
    var text := Bytes(line);
    Grown(text, byte);
    assert Completes(text + [byte]) ==> Stem(text + [byte]);
  }

  lemma UndecidedStep(line: seq<Atom>, byte: Octet)
    requires Undecided(Bytes(line))
    requires NextLine(line, byte)
    ensures var (next, shown, text) := (line + [Byte(byte)], PromptShown(line), Bytes(line) + [byte]);
      && shown <= Bytes(line)
      && (Completes(text) ==>
            && Hidden(text) && byte != LF && OpenShown(next) == LineShown(next)
            && LineShown(next) == if shown == [] && text[0] == STAR then PROMPT else shown)
      && (Stem(text) && !Completes(text) ==> Undecided(text) && PromptShown(next) == shown && byte != LF)
      && (!Stem(text) ==> !Hidden(text) && !Undecided(text) && OpenShown(next) == LineShown(next) == text)
  {
    var (next, text) := (line + [Byte(byte)], Bytes(line) + [byte]);
    Grown(Bytes(line), byte);
    NoiseStarts(text);
    if FlushedAt(line, 1) { FlushedWithin(line, 1); }
    if FlushedAt(line, 2) { FlushedWithin(line, 2); }
    if Stem(text) { StemsHaveNoLineFeed(text); }
    assert [STAR] <= text <==> text[0] == STAR;
    if |text| > 1 {
      assert PROMPT <= text <==> text[0] == STAR && text[1] == SPACE;
      assert PROMPT <= Bytes(line) ==> Bytes(line)[0] == STAR && |Bytes(line)| > 1 && Bytes(line)[1] == SPACE;
    }
  }

  lemma StemsHaveNoLineFeed(text: seq<Octet>)
    requires Stem(text)
    ensures LF !in text
  {
  }

  /** Given what a flush has shown, the candidate test asks about the whole line. */
  lemma TestMeaning(line: seq<Atom>, pending: seq<Octet>, text: seq<Octet>)
    requires PromptShown(line) + pending == text && PromptShown(line) <= Bytes(line)
    ensures pending in Candidates(PromptShown(line)) <==> Completes(text)
    ensures MayComplete(PromptShown(line), pending) <==> Stem(text)
    ensures Completes(text) && PromptShown(line) == [] ==> (pending in PROMPT_NOISE <==> text[0] == STAR)
  {
    var visible := PromptShown(line);
    if visible == [] {
      assert pending == text;
      FreshCandidateMeaning(pending);
      if Completes(text) { NoiseStarts(text); }
    } else {
      CandidateMeaning(visible, pending);
      assert text[0] == STAR;
      assert !(text <= SK_NOISE) && !(text <= PB_NOISE);
    }
  }

  // ----- the filter's fields against the open line -----

  /** The filter's four fields. */
  datatype Fields = Fields(lineStart: bool, dropping: bool, pending: seq<Octet>, visiblePrompt: seq<Octet>)

  lemma ShownStarts(line: seq<Atom>)
    ensures PromptShown(line) <= Bytes(line)
  {
  }

  /** What the fields hold when `line` has arrived since the last line feed. */
  ghost function FieldsAfter(line: seq<Atom>): Fields {
    var text := Bytes(line);
    ShownStarts(line);
    if Hidden(text) then Fields(true, true, [], [])
    else if Undecided(text) then Fields(true, false, text[|PromptShown(line)|..], PromptShown(line))
    else Fields(false, false, [], [])
  }

  lemma DroppingByte(line: seq<Atom>, byte: Octet)
    requires FieldsAfter(line).dropping
    requires NextLine(line, byte)
    ensures OpenShown(line + [Byte(byte)]) == LineShown(line + [Byte(byte)]) == OpenShown(line)
    ensures FieldsAfter(line + [Byte(byte)]) == FieldsAfter(line) == Fields(true, true, [], [])
  {
    HiddenStays(line, byte);
  }

  lemma PassingByte(line: seq<Atom>, byte: Octet)
    requires !FieldsAfter(line).dropping && !FieldsAfter(line).lineStart
    requires NextLine(line, byte)
    ensures OpenShown(line + [Byte(byte)]) == LineShown(line + [Byte(byte)]) == OpenShown(line) + [byte]
    ensures FieldsAfter(line + [Byte(byte)]) == FieldsAfter(line) == Fields(false, false, [], [])
  {
    DecidedStays(line, byte);
  }

  lemma StartingText(line: seq<Atom>, byte: Octet, held: seq<Octet>, visible: seq<Octet>)
    requires FieldsAfter(line) == Fields(true, false, held, visible)
    ensures Undecided(Bytes(line)) && visible == PromptShown(line) == OpenShown(line)
    ensures visible + (held + [byte]) == Bytes(line) + [byte]
    ensures (Bytes(line) + [byte])[|visible|..] == held + [byte]
  {
    hide Hidden, Stem, Candidates, FilterLine, FlushedAt;
    assert visible + held == Bytes(line);
  }

  lemma StartingByte(line: seq<Atom>, byte: Octet, held: seq<Octet>, visible: seq<Octet>)
    requires FieldsAfter(line) == Fields(true, false, held, visible)
    requires NextLine(line, byte)
    ensures var (next, pending) := (line + [Byte(byte)], held + [byte]);
      if pending in Candidates(visible) then
        && byte != LF && OpenShown(next) == LineShown(next)
        && LineShown(next) == OpenShown(line) + (if visible == [] && pending in PROMPT_NOISE then PROMPT else [])
        && FieldsAfter(next) == Fields(true, true, [], [])
      else if MayComplete(visible, pending) then
        byte != LF && OpenShown(next) == OpenShown(line) && FieldsAfter(next) == Fields(true, false, pending, visible)
      else
        && OpenShown(next) == LineShown(next) == OpenShown(line) + pending
        && FieldsAfter(next) == Fields(false, false, [], [])
  {
    StartingText(line, byte, held, visible);
    UndecidedStep(line, byte);
    TestMeaning(line, held + [byte], Bytes(line) + [byte]);
  }

  /** A byte's effect on the screen follows from its effect on the open line. */
  lemma ScreenAfterByte(history: seq<Atom>, byte: Octet, projected: seq<Octet>)
    requires var next := OpenLine(history) + [Byte(byte)];
      && OpenShown(next) == OpenShown(OpenLine(history)) + projected
      && (byte == LF ==> LineShown(next) == OpenShown(next))
    ensures Shown(history + [Byte(byte)]) == Shown(history) + projected
  {
    hide OpenShown, LineShown;
    AppendByte(history, byte);
    EmptyLine();
  }

  lemma EmptyLine()
    ensures OpenShown([]) == []
  {
  }

  lemma FreshLine()
    ensures FieldsAfter([]) == Fields(true, false, [], [])
  {
  }

  // ----- flushes -----

  lemma FlushedOnce(line: seq<Atom>)
    ensures Bytes(line + [Flush]) == Bytes(line)
    ensures FlushedAt(line + [Flush], 1) == (FlushedAt(line, 1) || |Bytes(line)| == 1)
    ensures FlushedAt(line + [Flush], 2) == (FlushedAt(line, 2) || |Bytes(line)| == 2)
  {
    assert (line + [Flush])[..|line|] == line;
  }

  lemma PromptAfterFlush(line: seq<Atom>)
    requires Undecided(Bytes(line))
    ensures PromptShown(line + [Flush]) ==
            if Bytes(line) == [STAR] || Bytes(line) == PROMPT then Bytes(line) else PromptShown(line)
  {
    var text := Bytes(line);
    FlushedOnce(line);
    if |text| == 1 {
      assert text == [text[0]];
    } else if |text| == 2 {
      assert text == [text[0], text[1]];
    }
  }

  lemma UndecidedFields(line: seq<Atom>)
    requires Undecided(Bytes(line))
    ensures PromptShown(line) <= Bytes(line) && OpenShown(line) == PromptShown(line)
    ensures FieldsAfter(line) == Fields(true, false, Bytes(line)[|PromptShown(line)|..], PromptShown(line))
  {
  }

  lemma StillUndecided(line: seq<Atom>)
    requires Undecided(Bytes(line))
    ensures Undecided(Bytes(line + [Flush]))
  {
    FlushedOnce(line);
  }

  lemma UndecidedIsStem(line: seq<Atom>)
    requires Undecided(Bytes(line))
    ensures Stem(Bytes(line))
  {
  }

  /** An unforced flush puts up a bare star or a bare prompt, and nothing else. */
  lemma FlushedLine(line: seq<Atom>)
    ensures var f := FieldsAfter(line);
      var shows := f.pending != [] && f.visiblePrompt + f.pending in [[STAR], PROMPT];
      && FieldsAfter(line + [Flush]) ==
         (if shows then Fields(true, false, [], f.visiblePrompt + f.pending) else f)
      && OpenShown(line + [Flush]) == OpenShown(line) + (if shows then f.pending else [])
      && (f.pending != [] ==> f.lineStart && !f.dropping && MayComplete(f.visiblePrompt, f.pending))
  {
    FlushedOnce(line);
    if Undecided(Bytes(line)) {
      FlushedUndecided(line);
    } else {
      NoiseStarts(Bytes(line));
    }
  }

  lemma FlushedUndecided(line: seq<Atom>)
    requires Undecided(Bytes(line))
    ensures var f := FieldsAfter(line);
      var shows := f.pending != [] && f.visiblePrompt + f.pending in [[STAR], PROMPT];
      && FieldsAfter(line + [Flush]) ==
         (if shows then Fields(true, false, [], f.visiblePrompt + f.pending) else f)
      && OpenShown(line + [Flush]) == OpenShown(line) + (if shows then f.pending else [])
      && (f.pending != [] ==> f.lineStart && !f.dropping && MayComplete(f.visiblePrompt, f.pending))
  {
    hide *;
    var (f, text, shown) := (FieldsAfter(line), Bytes(line), PromptShown(line));
    FlushedOnce(line);
    PromptAfterFlush(line);
    UndecidedFields(line);
    UndecidedFields(line + [Flush]) by { StillUndecided(line); }
    assert shown + f.pending == text;
    TestMeaning(line, f.pending, text);
    UndecidedIsStem(line);
    if text == [STAR] || text == PROMPT {
      assert f.pending == [] ==> shown == text;
    }
  }

  lemma ForcedLine(line: seq<Atom>)
    ensures OpenShown(line) + FieldsAfter(line).pending == LineShown(line)
  {
  }

  lemma ScreenAfterFlush(history: seq<Atom>, projected: seq<Octet>)
    requires OpenShown(OpenLine(history) + [Flush]) == OpenShown(OpenLine(history)) + projected
    ensures OpenLine(history + [Flush]) == OpenLine(history) + [Flush]
    ensures Shown(history + [Flush]) == Shown(history) + projected
  {
    assert (history + [Flush])[..|history|] == history;
  }

  lemma ScreenAtEnd(history: seq<Atom>)
    ensures Shown(history) + FieldsAfter(OpenLine(history)).pending == FinallyShown(history)
  {
    ForcedLine(OpenLine(history));
  }

  lemma PromptPieces(visible: seq<Octet>, pending: seq<Octet>)
    requires pending != []
    ensures visible + pending in [[STAR], PROMPT] <==>
            (visible == [] && (pending == [STAR] || pending == PROMPT)) || (visible == [STAR] && pending == [SPACE])
    ensures visible == [] ==> visible + pending == pending
  {
    var whole := visible + pending;
    if whole == PROMPT && |visible| == 1 {
      assert visible == [whole[0]] && pending == [whole[1]];
    }
    if visible == [] || |visible| > 1 {
      assert visible == [] ==> whole == pending;
    }
  }

  class HistoricalConsoleProjection {
    var lineStart: bool
    var dropping: bool
    var pending: seq<Octet>
    var visiblePrompt: seq<Octet>
    ghost var history: seq<Atom>

    ghost predicate Valid()
      reads this
    {
      Fields(lineStart, dropping, pending, visiblePrompt) == FieldsAfter(OpenLine(history))
    }

    constructor ()
      ensures Valid() && history == []
    {
      lineStart, dropping, pending, visiblePrompt, history := true, false, [], [], [];
    }

    method ProjectByte(byte: Octet) returns (projected: seq<Octet>)
      requires Valid()
      modifies this
      ensures Valid() && history == old(history) + [Byte(byte)]
      ensures Shown(old(history)) + projected == Shown(history)
    {
      hide FieldsAfter, OpenShown, LineShown, Shown, Candidates, MayComplete, NextLine, Bytes, FlushedAt, ClosedShown;
      projected := [];
      ghost var line := OpenLine(history);
      AppendByte(history, byte);
      if dropping {
        DroppingByte(line, byte);
        if byte == LF {
          dropping, lineStart, visiblePrompt := false, true, [];
        }
      } else if lineStart {
        StartingByte(line, byte, pending, visiblePrompt);
        pending := pending + [byte];
        if pending in Candidates(visiblePrompt) {
          if visiblePrompt == [] && pending in PROMPT_NOISE {
            projected := PROMPT;
          }
          pending, dropping, visiblePrompt := [], true, [];
        } else if !MayComplete(visiblePrompt, pending) {
          projected := pending;
          lineStart := byte == LF;
          pending, visiblePrompt := [], [];
        }
      } else {
        PassingByte(line, byte);
        projected := [byte];
        if byte == LF {
          lineStart := true;
        }
      }
      ScreenAfterByte(history, byte, projected);
      FreshLine();
      history := history + [Byte(byte)];
    }

    method Project(data: seq<Octet>) returns (projected: seq<Octet>)
      requires Valid()
      modifies this
      ensures Valid() && history == old(history) + Atoms(data)
      ensures Shown(old(history)) + projected == Shown(history)
    {
      hide *;
      projected := [];
      for i := 0 to |data|
        invariant Valid() && history == old(history) + Atoms(data)[..i]
        invariant Shown(old(history)) + projected == Shown(history)
      {
        var shown := ProjectByte(data[i]);
        projected := projected + shown;
        assert Atoms(data)[..i + 1] == Atoms(data)[..i] + [Byte(data[i])];
      }
      assert Atoms(data)[..|data|] == Atoms(data);
    }

    /** Unforced, a flush shows only a bare prompt; forced, it ends the session's text. */
    method FlushPending(force: bool) returns (projected: seq<Octet>)
      requires Valid()
      modifies this
      ensures force ==> Shown(old(history)) + projected == FinallyShown(old(history)) && history == old(history)
      ensures !force ==> Valid() && history == old(history) + [Flush]
      ensures !force ==> Shown(old(history)) + projected == Shown(history)
    {
      hide FieldsAfter, OpenShown, Shown, FinallyShown, MayComplete;
      projected := [];
      ghost var line := OpenLine(history);
      if !force {
        FlushedLine(line);
        ghost var shows := pending != [] && visiblePrompt + pending in [[STAR], PROMPT];
        ScreenAfterFlush(history, if shows then pending else []);
        history := history + [Flush];
        if pending != [] { PromptPieces(visiblePrompt, pending); }
      } else {
        ScreenAtEnd(history);
      }
      if pending == [] {
        return;
      }
      if !force {
        if visiblePrompt == [] && (pending == [STAR] || pending == PROMPT) {
          projected := pending;
          visiblePrompt, pending := pending, [];
          return;
        }
        if visiblePrompt == [STAR] && pending == [SPACE] {
          projected := pending;
          visiblePrompt, pending := PROMPT, [];
          return;
        }
        if MayComplete(visiblePrompt, pending) {
          return;
        }
      }
      projected := pending;
      lineStart := |pending| > 0 && pending[|pending| - 1] == LF;
      pending, visiblePrompt := [], [];
    }
  }

  // ----- the whole session against the reference -----

  lemma {:induction false} BytesAppend(a: seq<Atom>, b: seq<Atom>)
    ensures Bytes(a + b) == Bytes(a) + Bytes(b)
  {
    if b == [] {
      assert a + b == a;
    } else {
      var rest := b[..|b| - 1];
      BytesAppend(a, rest);
      assert (a + b)[..|a + b| - 1] == a + rest;
    }
  }

  lemma {:induction false} AtomBytes(data: seq<Octet>)
    ensures Bytes(Atoms(data)) == data
  {
    if data != [] {
      var rest := data[..|data| - 1];
      AtomBytes(rest);
      assert Atoms(data)[..|data| - 1] == Atoms(rest);
    }
  }

  /** The bytes up to and including the last line feed. */
  function ClosedBytes(history: seq<Atom>): seq<Octet> {
    if history == [] then []
    else var (rest, last) := (history[..|history| - 1], history[|history| - 1]);
      if last == Byte(LF) then Bytes(history) else ClosedBytes(rest)
  }

  lemma {:induction false} LinesSplit(history: seq<Atom>)
    ensures ClosedBytes(history) + Bytes(OpenLine(history)) == Bytes(history)
    ensures LF !in Bytes(OpenLine(history))
    ensures ClosedBytes(history) == [] || ClosedBytes(history)[|ClosedBytes(history)| - 1] == LF
  {
    if history != [] {
      var (rest, last) := (history[..|history| - 1], history[|history| - 1]);
      LinesSplit(rest);
      if last != Byte(LF) {
        var line := OpenLine(rest) + [last];
        assert line[..|line| - 1] == OpenLine(rest);
      }
    }
  }

  lemma {:induction false} FirstLineAppend(a: seq<Octet>, b: seq<Octet>)
    requires LF in a
    ensures FirstLine(a + b) == FirstLine(a)
  {
    if a[0] != LF {
      FirstLineAppend(a[1..], b);
      assert (a + b)[1..] == a[1..] + b;
    }
  }

  lemma {:induction false} FilteredAppend(closed: seq<Octet>, rest: seq<Octet>)
    requires closed == [] || closed[|closed| - 1] == LF
    ensures Filtered(closed + rest) == Filtered(closed) + Filtered(rest)
  {
    hide Filtered, FilterLine;
    if closed == [] {
      assert closed + rest == rest;
      assert Filtered([]) == [] by { FilteredUnfold([]); }
    } else {
      var n := FirstLine(closed);
      FirstLineAppend(closed, rest);
      FilteredAppend(closed[n..], rest);
      assert (closed + rest)[..n] == closed[..n] && (closed + rest)[n..] == closed[n..] + rest;
      FilteredUnfold(closed + rest);
      FilteredUnfold(closed);
    }
  }

  lemma FilteredUnfold(input: seq<Octet>)
    ensures Filtered(input) == if input == [] then []
      else FilterLine(input[..FirstLine(input)]) + Filtered(input[FirstLine(input)..])
  {
  }

  lemma {:induction false} FilteredLine(line: seq<Octet>, ending: seq<Octet>)
    requires LF !in line && (ending == [] || ending == [LF])
    ensures Filtered(line + ending) == FilterLine(line + ending)
  {
    var whole := line + ending;
    FirstLineWhole(line, ending);
    assert whole[..|whole|] == whole && whole[|whole|..] == [];
  }

  lemma {:induction false} FirstLineWhole(line: seq<Octet>, ending: seq<Octet>)
    requires LF !in line && (ending == [] || ending == [LF])
    ensures FirstLine(line + ending) == |line + ending|
  {
    if line != [] {
      FirstLineWhole(line[1..], ending);
      assert (line + ending)[1..] == line[1..] + ending;
    }
  }

  /** How many lines lose their space. */
  function ClosedLosses(history: seq<Atom>): nat {
    if history == [] then 0
    else var (rest, last) := (history[..|history| - 1], history[|history| - 1]);
      ClosedLosses(rest) + if last == Byte(LF) && LosesSpace(OpenLine(rest) + [last]) then 1 else 0
  }

  function Losses(history: seq<Atom>): nat {
    ClosedLosses(history) + if LosesSpace(OpenLine(history)) then 1 else 0
  }

  lemma LineLoss(line: seq<Atom>)
    ensures LosesSpace(line) ==> |LineShown(line)| == |FilterLine(Bytes(line))| - 1
    ensures !LosesSpace(line) ==> LineShown(line) == FilterLine(Bytes(line))
  {
    NoiseStarts(Bytes(line));
  }

  lemma {:induction false} ClosedAgainstReference(history: seq<Atom>)
    ensures |ClosedShown(history)| + ClosedLosses(history) == |Filtered(ClosedBytes(history))|
    ensures ClosedLosses(history) == 0 ==> ClosedShown(history) == Filtered(ClosedBytes(history))
  {
    hide LosesSpace, LineShown, FilterLine;
    if history != [] {
      var (rest, last) := (history[..|history| - 1], history[|history| - 1]);
      ClosedAgainstReference(rest);
      if last == Byte(LF) {
        var line := OpenLine(rest) + [last];
        LinesSplit(rest);
        LineLoss(line);
        assert line[..|line| - 1] == OpenLine(rest);
        assert Bytes(history) == ClosedBytes(rest) + Bytes(line);
        FilteredLine(Bytes(OpenLine(rest)), [LF]);
        FilteredAppend(ClosedBytes(rest), Bytes(line));
      }
    }
  }

  /** The screen is the per-line filter of the input exactly when no line lost its space;
      each loss costs one byte. */
  lemma FilterExactness(history: seq<Atom>)
    ensures |FinallyShown(history)| + Losses(history) == |Filtered(Bytes(history))|
    ensures FinallyShown(history) == Filtered(Bytes(history)) <==> Losses(history) == 0
  {
    hide LosesSpace, LineShown, FilterLine;
    ClosedAgainstReference(history);
    LinesSplit(history);
    var line := Bytes(OpenLine(history));
    assert line + [] == line;
    FilteredLine(line, []);
    FilteredAppend(ClosedBytes(history), line);
    LineLoss(OpenLine(history));
  }

  /** A flush between the star and the space of one instrumentation line really loses it. */
  lemma LossHappens()
    ensures var history := [Byte(STAR), Flush] + Atoms([SPACE] + SK_NOISE);
      Bytes(history) == PROMPT + SK_NOISE && Losses(history) == 1
  {
    var (start, noise) := ([Byte(STAR), Flush], [SPACE] + SK_NOISE);
    BytesAppend(start, Atoms(noise));
    AtomBytes(noise);
    assert Bytes([Byte(STAR)]) == [STAR] && [Byte(STAR), Flush][..1] == [Byte(STAR)];
    assert [STAR] + noise == PROMPT + SK_NOISE;
    OneOpenLine(start + Atoms(noise));
    BytesDoNotFlush(start, noise, 1);
    BytesDoNotFlush(start, noise, 2);
    if FlushedAt(start, 2) { FlushedWithin(start, 2); }
    assert FlushedAt(start, 1);
  }

  lemma {:induction false} OneOpenLine(history: seq<Atom>)
    requires forall i :: 0 <= i < |history| ==> history[i] != Byte(LF)
    ensures OpenLine(history) == history && ClosedLosses(history) == 0
  {
    hide LosesSpace;
    if history != [] {
      var (rest, last) := (history[..|history| - 1], history[|history| - 1]);
      OneOpenLine(rest);
      assert rest + [last] == history;
    }
  }

  lemma {:induction false} BytesDoNotFlush(start: seq<Atom>, data: seq<Octet>, n: nat)
    ensures FlushedAt(start + Atoms(data), n) == FlushedAt(start, n)
  {
    var history := start + Atoms(data);
    if data == [] {
      assert history == start;
    } else {
      var rest := data[..|data| - 1];
      BytesDoNotFlush(start, rest, n);
      assert history[..|history| - 1] == start + Atoms(rest);
    }
  }

  datatype Call = Chunk(data: seq<Octet>) | Idle

  function CallHistory(calls: seq<Call>): seq<Atom> {
    if calls == [] then []
    else var (rest, last) := (calls[..|calls| - 1], calls[|calls| - 1]);
      CallHistory(rest) + if last.Chunk? then Atoms(last.data) else [Flush]
  }

  function Input(calls: seq<Call>): seq<Octet> {
    if calls == [] then []
    else var (rest, last) := (calls[..|calls| - 1], calls[|calls| - 1]);
      Input(rest) + if last.Chunk? then last.data else []
  }

  lemma {:induction false} CallBytes(calls: seq<Call>)
    ensures Bytes(CallHistory(calls)) == Input(calls)
  {
    if calls != [] {
      var (rest, last) := (calls[..|calls| - 1], calls[|calls| - 1]);
      CallBytes(rest);
      BytesAppend(CallHistory(rest), if last.Chunk? then Atoms(last.data) else [Flush]);
      if last.Chunk? { AtomBytes(last.data); }
    }
  }

  /** One session: chunks and idle polls in any order, closed by the forced flush. */
  method Display(calls: seq<Call>) returns (screen: seq<Octet>)
    ensures screen == FinallyShown(CallHistory(calls))
    ensures screen == Filtered(Input(calls)) <==> Losses(CallHistory(calls)) == 0
  {
    hide Shown, FinallyShown, Losses, Filtered;
    var projection := new HistoricalConsoleProjection();
    screen := [];
    assert Shown([]) == [] by { EmptyScreen(); }
    for i := 0 to |calls|
      invariant projection.Valid() && projection.history == CallHistory(calls[..i])
      invariant screen == Shown(projection.history)
    {
      assert calls[..i + 1][..i] == calls[..i];
      var shown;
      match calls[i] {
        case Chunk(data) => shown := projection.Project(data);
        case Idle => shown := projection.FlushPending(false);
      }
      screen := screen + shown;
    }
    assert calls[..|calls|] == calls;
    var rest := projection.FlushPending(true);
    screen := screen + rest;
    CallBytes(calls);
    FilterExactness(CallHistory(calls));
  }

  /** The text starts one of the instrumentation texts, or starts with one. */
  predicate NearNoise(text: seq<Octet>) {
    || text <= SK_NOISE || SK_NOISE <= text || text <= PB_NOISE || PB_NOISE <= text
    || text <= PROMPT + SK_NOISE || PROMPT + SK_NOISE <= text || text <= PROMPT + PB_NOISE || PROMPT + PB_NOISE <= text
  }

  /** A flush puts up a bare prompt, or what is missing of it, and nothing else; and what cannot
      become an instrumentation line is on the screen as soon as it has arrived. */
  lemma FlushShowsPrompt(history: seq<Atom>)
    ensures var (text, after) := (Bytes(OpenLine(history)), Shown(history + [Flush]));
      && (text == [STAR] || text == [STAR, SPACE] ==> after == ClosedShown(history) + text)
      && (text != [STAR] && text != [STAR, SPACE] ==> after == Shown(history))
      && (!NearNoise(text) ==> after == Shown(history) == ClosedShown(history) + text)
  {
    var (line, after) := (OpenLine(history), history + [Flush]);
    assert after[..|history|] == history && (line + [Flush])[..|line|] == line;
    assert OpenLine(after) == line + [Flush] && Bytes(line + [Flush]) == Bytes(line);
    FlushShowsLine(line);
  }

  lemma FlushShowsLine(line: seq<Atom>)
    requires Bytes(line + [Flush]) == Bytes(line)
    ensures var (text, shown) := (Bytes(line), OpenShown(line + [Flush]));
      && (text == [STAR] || text == [STAR, SPACE] ==> shown == text)
      && (text != [STAR] && text != [STAR, SPACE] ==> shown == OpenShown(line))
      && (!NearNoise(text) ==> shown == OpenShown(line) == text)
  {
    FlushedOnce(line);
    if Undecided(Bytes(line)) {
      PromptAfterFlush(line);
    } else {
      NoiseStarts(Bytes(line));
    }
  }

  lemma EmptyScreen()
    ensures Shown([]) == []
  {
  }
}
