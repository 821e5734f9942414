/** The passive ingress of ncc/host_interface.py, and what its messages have to do with those sent. */
module HostIngress {
  import opened Wrappers
  import opened HostInterface

  datatype Message = Message(first: nat, final: nat, words: seq<Word>)

  function Words(packets: seq<Packet>): seq<Word> {
    if packets == [] then [] else Words(packets[..|packets| - 1]) + packets[|packets| - 1].words
  }

  /** A packet that completes a message. */
  predicate Ends(p: Packet) { Final(p) && p.words != [] }

  function LastSequence(accepted: seq<Packet>): Option<nat> {
    if accepted == [] then None else Some(accepted[|accepted| - 1].sequence)
  }

  /** A packet is refused when it repeats or goes back, unless it restarts at zero. */
  predicate Admits(accepted: seq<Packet>, p: Packet) {
    accepted == [] || p.sequence == 0 || p.sequence > accepted[|accepted| - 1].sequence
  }

  /** Nothing was lost between the accepted packets and `p`. */
  predicate Joins(accepted: seq<Packet>, p: Packet) {
    accepted != [] && p.sequence == accepted[|accepted| - 1].sequence + 1
  }

  /** The packets of the message in progress. */
  function Run(accepted: seq<Packet>): seq<Packet>
    decreases |accepted|, 0
  {
    if accepted == [] then []
    else if Ends(accepted[|accepted| - 1]) then []
    else Extended(accepted[..|accepted| - 1], accepted[|accepted| - 1])
  }

  /** The message in progress once `p` is taken in, before it is seen whether `p` ends it. */
  function Extended(accepted: seq<Packet>, p: Packet): seq<Packet>
    decreases |accepted|, 1
  {
    var kept := if Joins(accepted, p) then Run(accepted) else [];
    if kept == [] && p.words == [] then [] else kept + [p]
  }

  /** What is left of the message in progress when `p` arrives: nothing after a gap or restart. */
  function Kept(accepted: seq<Packet>, p: Packet): seq<Packet> {
    if Joins(accepted, p) then Run(accepted) else []
  }

  /** The message that the newest accepted packet completes, if it does. */
  function Completed(accepted: seq<Packet>, p: Packet): Option<Message> {
    if !Ends(p) then None
    else var run := Extended(accepted, p); Some(Message(run[0].sequence, p.sequence, Words(run)))
  }

  function Outputs(accepted: seq<Packet>): seq<Message> {
    if accepted == [] then []
    else
      var (rest, p) := (accepted[..|accepted| - 1], accepted[|accepted| - 1]);
      Outputs(rest) + match Completed(rest, p) case None => [] case Some(message) => [message]
  }

  class PassiveHostIngress {
    var nextReadySequence: nat
    var lastReceivedSequence: Option<nat>
    var firstMessageSequence: Option<nat>
    var messageWords: seq<Word>
    ghost var accepted: seq<Packet>
    ghost var emitted: seq<Message>

    ghost predicate Valid()
      reads this
    {
      Partial(lastReceivedSequence, firstMessageSequence, messageWords) == PartialOf(accepted)
        && emitted == Outputs(accepted)
    }

    constructor ()
      ensures Valid() && accepted == [] && emitted == [] && nextReadySequence == 0
    {
      nextReadySequence, lastReceivedSequence, firstMessageSequence, messageWords := 0, None, None, [];
      accepted, emitted := [], [];
    }

    /** Readiness: both flags and no words, so that nothing it says can be part of a message,
        and the next number no sent packet has had. It is refused only beyond the wire's range. */
    method ReadyPacket() returns (result: Result<Packet, Error>)
      ensures result.Ok? <==> nextReadySequence <= 0xFFFF_FFFF
      ensures result.Ok? ==>
        var p := result.value;
        && Final(p) && Ready(p) && !Ends(p) && HostInterface.Valid(p) && p.sequence == nextReadySequence
        && forall taken :: Completed(taken, p).None? && Words(Extended(taken, p)) == Words(Kept(taken, p))
      ensures result.Err? ==> result.error == SequenceTooLarge
    {
      if nextReadySequence > 0xFFFF_FFFF { return Err(SequenceTooLarge); }
      var p := Packet(nextReadySequence, 3, []);
      ReadySaysNothing(p);
      return Ok(p);
    }

    method ReadySent()
      requires Valid()
      modifies this`nextReadySequence
      ensures Valid() && nextReadySequence == old(nextReadySequence) + 1
    {
      nextReadySequence := nextReadySequence + 1;
    }

    method DiscardPartialMessage()
      modifies this`firstMessageSequence, this`messageWords
      ensures firstMessageSequence == None && messageWords == []
    {
      firstMessageSequence, messageWords := None, [];
    }

    method CheckSequence(sequence: nat) returns (ok: bool)
      modifies this`firstMessageSequence, this`messageWords
      ensures ok <==> lastReceivedSequence.None? || sequence == 0 || sequence > lastReceivedSequence.value
      ensures if lastReceivedSequence.Some? && sequence == 0 then firstMessageSequence == None && messageWords == []
              else firstMessageSequence == old(firstMessageSequence) && messageWords == old(messageWords)
    {
      if lastReceivedSequence.None? { return true; }
      if sequence == 0 {
        DiscardPartialMessage();
        return true;
      }
      return sequence > lastReceivedSequence.value;
    }

    /** A refused packet changes nothing; an accepted one completes at most one message, made
        of the packets in progress and itself. */
    method Receive(p: Packet) returns (result: Result<Option<Message>, Error>)
      requires Valid()
      modifies this
      ensures Valid() && nextReadySequence == old(nextReadySequence)
      ensures result.Ok? <==> Admits(old(accepted), p)
      ensures result.Err? ==>
        && accepted == old(accepted) && emitted == old(emitted) && messageWords == old(messageWords)
        && lastReceivedSequence == old(lastReceivedSequence) && firstMessageSequence == old(firstMessageSequence)
      ensures result.Ok? ==> accepted == old(accepted) + [p] && result.value == Completed(old(accepted), p)
    {
      hide PartialOf, Outputs, Completed;
      PartialGrows(accepted, p);
      OutputsGrow(accepted, p);
      var admitted := CheckSequence(p.sequence);
      if !admitted { return Err(OutOfOrder); }
      if lastReceivedSequence.Some? && p.sequence > lastReceivedSequence.value + 1 {
        DiscardPartialMessage();
      }
      lastReceivedSequence := Some(p.sequence);
      accepted := accepted + [p];
      if p.words == [] {
        return Ok(None);
      }
      if firstMessageSequence.None? {
        firstMessageSequence := Some(p.sequence);
      }
      messageWords := messageWords + p.words;
      if !Final(p) {
        return Ok(None);
      }
      var message := Message(firstMessageSequence.value, p.sequence, messageWords);
      DiscardPartialMessage();
      emitted := emitted + [message];
      return Ok(Some(message));
    }
  }

  /** The fields of the ingress, as the packets accepted so far determine them. */
  datatype Partial = Partial(last: Option<nat>, first: Option<nat>, words: seq<Word>)

  function PartialOf(accepted: seq<Packet>): Partial {
    var run := Run(accepted);
    Partial(LastSequence(accepted), if run == [] then None else Some(run[0].sequence), Words(run))
  }

  lemma WordsGrow(packets: seq<Packet>, p: Packet)
    ensures Words(packets + [p]) == Words(packets) + p.words
  {
    assert (packets + [p])[..|packets|] == packets;
  }

  lemma ReadySaysNothing(p: Packet)
    requires p.words == []
    ensures forall taken :: Completed(taken, p).None? && Words(Extended(taken, p)) == Words(Kept(taken, p))
  {
    forall taken ensures Completed(taken, p).None? && Words(Extended(taken, p)) == Words(Kept(taken, p)) {
      WordsGrow(Kept(taken, p), p);
    }
  }

  lemma PartialGrows(accepted: seq<Packet>, p: Packet)
    ensures var (before, joins) := (PartialOf(accepted), Joins(accepted, p));
      var (first, words) := if joins then (before.first, before.words) else (None, []);
      var firstNow := if first.None? && p.words != [] then Some(p.sequence) else first;
      && PartialOf(accepted + [p]) ==
        (if Ends(p) then Partial(Some(p.sequence), None, []) else Partial(Some(p.sequence), firstNow, words + p.words))
      && Completed(accepted, p) ==
        (if Ends(p) then Some(Message(firstNow.value, p.sequence, words + p.words)) else None)
      && before.last == LastSequence(accepted) && (accepted == [] ==> before == Partial(None, None, []))
  {
    assert (accepted + [p])[..|accepted|] == accepted;
    var kept := if Joins(accepted, p) then Run(accepted) else [];
    hide Run;
    WordsGrow(kept, p);
    RunUnfold(accepted, p);
    RunHasWords(accepted);
  }

  lemma RunUnfold(accepted: seq<Packet>, p: Packet)
    ensures Run(accepted + [p]) == if Ends(p) then [] else Extended(accepted, p)
  {
    assert (accepted + [p])[..|accepted|] == accepted;
  }

  lemma RunHasWords(accepted: seq<Packet>)
    ensures Run([]) == [] && Words([]) == []
  {
  }

  lemma OutputsGrow(accepted: seq<Packet>, p: Packet)
    ensures Outputs(accepted + [p]) ==
      match Completed(accepted, p) case None => Outputs(accepted) case Some(message) => Outputs(accepted) + [message]
  {
    assert (accepted + [p])[..|accepted|] == accepted;
  }

  // ----- gap-free runs -----

  predicate Consecutive(packets: seq<Packet>) {
    forall i :: 0 < i < |packets| ==> packets[i].sequence == packets[i - 1].sequence + 1
  }

  /** The packets in progress are the last ones accepted, none missing between them, and none
      of them ends a message. */
  lemma {:induction false} RunIsGapFree(accepted: seq<Packet>)
    ensures var run := Run(accepted);
      && |run| <= |accepted| && run == accepted[|accepted| - |run|..] && Consecutive(run)
      && (run != [] ==> run[0].words != [])
      && forall i :: 0 <= i < |run| ==> !Ends(run[i])
  {
    if accepted != [] {
      RunIsGapFree(accepted[..|accepted| - 1]);
    }
  }

  /** Every completed message is the words of one gap-free run of the packets just accepted,
      starting with a packet that has words and containing no earlier message's end. */
  lemma CompletedIsARun(accepted: seq<Packet>, p: Packet)
    requires Completed(accepted, p).Some?
    ensures var (message, run) := (Completed(accepted, p).value, Extended(accepted, p));
      && run != [] && run[|run| - 1] == p && run[0].words != [] && Consecutive(run)
      && |run| <= |accepted| + 1 && run == (accepted + [p])[|accepted| + 1 - |run|..]
      && message == Message(run[0].sequence, p.sequence, Words(run))
      && forall i :: 0 <= i < |run| - 1 ==> !Ends(run[i])
  {
    hide Words;
    RunIsGapFree(accepted);
  }

  // ----- which message an end completes -----

  /** Packet `i` begins anew: it is the first, or follows an end, a gap or a restart. */
  predicate Anew(accepted: seq<Packet>, i: nat)
    requires i < |accepted|
  {
    i == 0 || Ends(accepted[i - 1]) || accepted[i].sequence != accepted[i - 1].sequence + 1
  }

  /** Packet `j` follows the one before it, which ends nothing. */
  predicate GoesOn(accepted: seq<Packet>, j: nat)
    requires 0 < j < |accepted|
  {
    accepted[j].sequence == accepted[j - 1].sequence + 1 && !Ends(accepted[j - 1])
  }

  /** Packets `i` to `k` follow one another, the first one anew, with no end before the last. */
  predicate Stretch(accepted: seq<Packet>, i: nat, k: nat)
    requires i <= k < |accepted|
  {
    Anew(accepted, i) && forall j :: i < j <= k ==> GoesOn(accepted, j)
  }

  /** Of the packets from `i` on, `j` is the first that has words. */
  predicate FirstWords(accepted: seq<Packet>, i: nat, j: nat)
    requires i <= j < |accepted|
  {
    accepted[j].words != [] && forall m :: i <= m < j ==> accepted[m].words == []
  }

  /** What is completed at `k`: a message exactly if packet `k` is final and has words, with all
      the words since the packet that began anew, whatever was lost or completed before that. */
  lemma CompletedExactly(accepted: seq<Packet>, i: nat, k: nat)
    requires i <= k < |accepted| && Stretch(accepted, i, k)
    ensures Completed(accepted[..k], accepted[k]).Some? <==> Final(accepted[k]) && accepted[k].words != []
    ensures Completed(accepted[..k], accepted[k]).Some? ==>
      var message := Completed(accepted[..k], accepted[k]).value;
      && message.words == Words(accepted[i..k + 1]) && message.final == accepted[k].sequence
      && forall j :: i <= j <= k && FirstWords(accepted, i, j) ==> message.first == accepted[j].sequence
  {
    hide Run, Words;
    InProgress(accepted, i, k);
    var (kept, p) := (Kept(accepted[..k], accepted[k]), accepted[k]);
    assert accepted[i..k + 1] == accepted[i..k] + [p];
    WordsGrow(accepted[i..k], p);
    WordsGrow(kept, p);
  }

  /** The packets kept when `k` arrives are those since the one that began anew, from the first
      that has words. */
  ghost predicate KeptSince(accepted: seq<Packet>, i: nat, k: nat, kept: seq<Packet>)
    requires i <= k <= |accepted|
  {
    && Words(kept) == Words(accepted[i..k])
    && (kept == [] <==> forall j :: i <= j < k ==> accepted[j].words == [])
    && (forall j :: i <= j < k && FirstWords(accepted, i, j) ==> kept != [] && kept[0] == accepted[j])
  }

  lemma {:induction false} InProgress(accepted: seq<Packet>, i: nat, k: nat)
    requires i <= k < |accepted| && Stretch(accepted, i, k)
    ensures KeptSince(accepted, i, k, Kept(accepted[..k], accepted[k]))
  {
    hide KeptSince, Kept, Ends;
    if i == k {
      StartsEmpty(accepted, i);
    } else {
      InProgress(accepted, i, k - 1);
      KeepsOne(accepted, i, k);
    }
  }

  lemma KeepsOne(accepted: seq<Packet>, i: nat, k: nat)
    requires i < k < |accepted| && GoesOn(accepted, k)
    requires KeptSince(accepted, i, k - 1, Kept(accepted[..k - 1], accepted[k - 1]))
    ensures KeptSince(accepted, i, k, Kept(accepted[..k], accepted[k]))
  {
    hide Run, Words, Ends;
    var (before, p) := (accepted[..k - 1], accepted[k - 1]);
    assert accepted[..k] == before + [p] && accepted[i..k] == accepted[i..k - 1] + [p];
    RunUnfold(before, p);
    WordsGrow(accepted[i..k - 1], p);
    WordsGrow(Kept(before, p), p);
    RunHasWords([]);
  }

  lemma StartsEmpty(accepted: seq<Packet>, i: nat)
    requires i < |accepted| && Anew(accepted, i)
    ensures KeptSince(accepted, i, i, Kept(accepted[..i], accepted[i]))
  {
  }

  // ----- what was sent -----

  /** A message as sent: packets of which exactly the last is final and has words. */
  predicate WellSent(message: seq<Packet>) {
    message != [] && Ends(message[|message| - 1]) && forall i :: 0 <= i < |message| - 1 ==> !Ends(message[i])
  }

  function Flat(messages: seq<seq<Packet>>): seq<Packet> {
    if messages == [] then [] else Flat(messages[..|messages| - 1]) + messages[|messages| - 1]
  }

  /** A sender that numbers its packets from zero. */
  ghost predicate Sender(messages: seq<seq<Packet>>) {
    && (forall i :: 0 <= i < |messages| ==> WellSent(messages[i]))
    && forall s :: 0 <= s < |Flat(messages)| ==> Flat(messages)[s].sequence == s
  }

  /** Where message `j` begins. */
  function Offset(messages: seq<seq<Packet>>, j: nat): nat
    requires j <= |messages|
  {
    |Flat(messages[..j])|
  }

  lemma {:induction false} MessageAt(messages: seq<seq<Packet>>, j: nat)
    requires j < |messages|
    ensures Offset(messages, j) + |messages[j]| == Offset(messages, j + 1) <= |Flat(messages)|
    ensures Flat(messages)[Offset(messages, j)..Offset(messages, j + 1)] == messages[j]
  {
    if j == |messages| - 1 {
      assert messages[..j + 1] == messages;
    } else {
      var rest := messages[..|messages| - 1];
      MessageAt(rest, j);
      assert rest[..j] == messages[..j] && rest[..j + 1] == messages[..j + 1] && rest[j] == messages[j];
    }
  }

  lemma {:induction false} InSomeMessage(messages: seq<seq<Packet>>, s: nat) returns (j: nat)
    requires s < |Flat(messages)|
    ensures j < |messages| && Offset(messages, j) <= s < Offset(messages, j + 1)
  {
    var rest := messages[..|messages| - 1];
    if s < |Flat(rest)| {
      j := InSomeMessage(rest, s);
      assert rest[..j] == messages[..j] && rest[..j + 1] == messages[..j + 1];
    } else {
      j := |rest|;
      assert messages[..j] == rest && messages[..j + 1] == messages;
    }
  }

  /** Every packet is one the sender sent under that number. */
  ghost predicate Genuine(packets: seq<Packet>, messages: seq<seq<Packet>>) {
    forall i :: 0 <= i < |packets| ==>
      packets[i].sequence < |Flat(messages)| && packets[i] == Flat(messages)[packets[i].sequence]
  }

  /** A gap-free run that ends a message is a suffix of that message, packet for packet. */
  lemma RunIsASuffix(run: seq<Packet>, messages: seq<seq<Packet>>) returns (j: nat)
    requires Sender(messages) && Genuine(run, messages) && Consecutive(run) && run != []
    requires Ends(run[|run| - 1]) && forall i :: 0 <= i < |run| - 1 ==> !Ends(run[i])
    ensures j < |messages| && |run| <= |messages[j]| && run == messages[j][|messages[j]| - |run|..]
    ensures Offset(messages, j) <= run[0].sequence && run[|run| - 1].sequence == Offset(messages, j + 1) - 1
  {
    var (flat, last) := (Flat(messages), run[|run| - 1].sequence);
    j := InSomeMessage(messages, last);
    MessageAt(messages, j);
    var (from, m) := (Offset(messages, j), messages[j]);
    assert WellSent(m) && flat[last] == m[last - from];
    assert last == from + |m| - 1;
    ConsecutiveNumbers(run);
    hide Flat;
    if |run| > |m| {
      var q := run[|run| - 1 - |m|];
      assert q.sequence == from - 1;
      PreviousEnds(messages, j);
      assert false;
    }
    forall i | 0 <= i < |run| ensures run[i] == m[|m| - |run| + i] {
      assert run[i].sequence == last - (|run| - 1 - i);
      assert flat[from..from + |m|][|m| - |run| + i] == flat[run[i].sequence];
    }
  }

  lemma {:induction false} ConsecutiveNumbers(run: seq<Packet>)
    requires Consecutive(run) && run != []
    ensures forall i :: 0 <= i < |run| ==> run[i].sequence == run[|run| - 1].sequence - (|run| - 1 - i)
  {
    if |run| > 1 {
      ConsecutiveNumbers(run[..|run| - 1]);
    }
  }

  lemma PreviousEnds(messages: seq<seq<Packet>>, j: nat)
    requires Sender(messages) && j < |messages| && Offset(messages, j) > 0
    ensures Offset(messages, j) <= |Flat(messages)| && Ends(Flat(messages)[Offset(messages, j) - 1])
  {
    assert j > 0 by { assert messages[..0] == []; }
    MessageAt(messages, j - 1);
    MessageAt(messages, j);
    var (a, b) := (Offset(messages, j - 1), Offset(messages, j));
    assert WellSent(messages[j - 1]);
    assert Flat(messages)[a..b][|messages[j - 1]| - 1] == Flat(messages)[b - 1];
  }

  /** The words of the last packets of a message, whole packets and at least one. */
  predicate IsTail(words: seq<Word>, message: seq<Packet>) {
    exists n :: 0 < n <= |message| && words == Words(Last(message, n))
  }

  function Last(message: seq<Packet>, n: nat): seq<Packet>
    requires n <= |message|
  {
    message[|message| - n..]
  }

  /** What comes out is a tail of message `j`, ending with that message's last packet. */
  ghost predicate TailOf(out: Message, messages: seq<seq<Packet>>, j: nat) {
    j < |messages| && IsTail(out.words, messages[j]) && out.final == Offset(messages, j + 1) - 1
  }

  ghost predicate FromOne(out: Message, messages: seq<seq<Packet>>) { exists j :: TailOf(out, messages, j) }

  /** Over a channel that loses, repeats and reorders one sender's packets, every message that
      comes out is a whole-packet suffix of a message sent: only a lost head can leave a tail. */
  lemma EmittedWasSent(accepted: seq<Packet>, p: Packet, messages: seq<seq<Packet>>)
    requires Sender(messages) && Genuine(Extended(accepted, p), messages) && Completed(accepted, p).Some?
    ensures FromOne(Completed(accepted, p).value, messages)
  {
    var run := Extended(accepted, p);
    CompletedIsARun(accepted, p);
    hide Words, Extended, Completed, Sender;
    var j := RunIsASuffix(run, messages);
    assert run == Last(messages[j], |run|);
    assert TailOf(Completed(accepted, p).value, messages, j);
  }

  /** ... and of no other message. */
  lemma {:induction false} OnlyOneSent(out: Message, messages: seq<seq<Packet>>, i: nat, j: nat)
    requires Sender(messages) && TailOf(out, messages, i) && TailOf(out, messages, j)
    ensures i == j
  {
    if i < j {
      OffsetsGrow(messages, i + 1, j + 1);
    } else if j < i {
      OffsetsGrow(messages, j + 1, i + 1);
    }
  }

  lemma {:induction false} OffsetsGrow(messages: seq<seq<Packet>>, i: nat, j: nat)
    requires Sender(messages) && i < j <= |messages|
    ensures Offset(messages, i) < Offset(messages, j)
  {
    assert WellSent(messages[j - 1]);
    MessageAt(messages, j - 1);
    if i < j - 1 {
      OffsetsGrow(messages, i, j - 1);
    }
  }

  // ----- no loss -----

  lemma OutputsConcat(accepted: seq<Packet>, p: Packet)
    ensures Run(accepted + [p]) == if Ends(p) then [] else Extended(accepted, p)
    ensures Outputs(accepted + [p]) ==
      match Completed(accepted, p) case None => Outputs(accepted) case Some(message) => Outputs(accepted) + [message]
  {
    RunUnfold(accepted, p);
    OutputsGrow(accepted, p);
  }

  /** Part of a message taken in after everything before it: nothing comes out yet, and the
      words in hand are the words of that part. */
  lemma {:induction false} PartTaken(before: seq<Packet>, message: seq<Packet>, k: nat)
    requires WellSent(message) && k < |message| && Run(before) == []
    requires Consecutive(before + message)
    ensures Outputs(before + message[..k]) == Outputs(before)
    ensures Words(Run(before + message[..k])) == Words(message[..k])
  {
    hide Run, Outputs, Words, Joins, Ends, Consecutive;
    if k == 0 {
      assert before + message[..0] == before && message[..0] == [];
      RunHasWords([]);
    } else {
      PartTaken(before, message, k - 1);
      var (taken, p) := (before + message[..k - 1], message[k - 1]);
      assert before + message[..k] == taken + [p] && message[..k] == message[..k - 1] + [p];
      TakenJoins(before, message, k - 1);
      TakeOne(taken, p, message[..k - 1]);
    }
  }

  /** One more packet of a message that it does not end. */
  lemma TakeOne(taken: seq<Packet>, p: Packet, part: seq<Packet>)
    requires (Run(taken) == [] || Joins(taken, p)) && !Ends(p) && Words(Run(taken)) == Words(part)
    ensures Outputs(taken + [p]) == Outputs(taken) && Words(Run(taken + [p])) == Words(part + [p])
  {
    hide Run, Outputs, Words, Joins, Ends;
    OutputsConcat(taken, p);
    WordsGrow(Run(taken), p);
    WordsGrow(part, p);
    RunHasWords([]);
  }

  lemma TakenJoins(before: seq<Packet>, message: seq<Packet>, k: nat)
    requires WellSent(message) && k < |message| && Run(before) == [] && Consecutive(before + message)
    ensures k > 0 ==> Joins(before + message[..k], message[k])
    ensures Run(before + message[..k]) == [] || Joins(before + message[..k], message[k])
  {
    var all := before + message;
    if |before| + k > 0 {
      assert all[|before| + k].sequence == all[|before| + k - 1].sequence + 1;
      assert all[|before| + k - 1] == (before + message[..k])[|before| + k - 1];
    } else {
      assert before + message[..k] == [];
    }
  }

  lemma {:induction false} MessagesOut(messages: seq<seq<Packet>>)
    requires Sender(messages)
    ensures Run(Flat(messages)) == [] && |Outputs(Flat(messages))| == |messages|
    ensures forall j :: 0 <= j < |messages| ==> Outputs(Flat(messages))[j].words == Words(messages[j])
  {
    hide Run, Outputs, Words, Sender;
    if messages == [] {
      NothingOut();
    } else {
      var (rest, message) := (messages[..|messages| - 1], messages[|messages| - 1]);
      SenderPrefix(messages);
      MessagesOut(rest);
      LastTaken(Flat(rest), message);
    }
  }

  /** With no packet lost from the first on, none is refused, and the messages that come out are
      the messages sent, word for word and in order. */
  lemma NothingLost(messages: seq<seq<Packet>>)
    requires Sender(messages)
    ensures forall k :: 0 <= k < |Flat(messages)| ==> Admits(Flat(messages)[..k], Flat(messages)[k])
    ensures |Outputs(Flat(messages))| == |messages|
    ensures forall j :: 0 <= j < |messages| ==> Outputs(Flat(messages))[j].words == Words(messages[j])
  {
    hide *;
    AllAdmitted(messages);
    MessagesOut(messages);
  }

  lemma AllAdmitted(messages: seq<seq<Packet>>)
    requires Sender(messages)
    ensures forall k :: 0 <= k < |Flat(messages)| ==> Admits(Flat(messages)[..k], Flat(messages)[k])
  {
    hide Flat;
  }

  lemma NothingOut()
    ensures Flat([]) == [] && Run([]) == [] && Outputs([]) == []
  {
  }

  lemma SenderPrefix(messages: seq<seq<Packet>>)
    requires Sender(messages) && messages != []
    ensures Sender(messages[..|messages| - 1])
    ensures Consecutive(Flat(messages[..|messages| - 1]) + messages[|messages| - 1])
    ensures WellSent(messages[|messages| - 1])
  {
    var (rest, flat) := (messages[..|messages| - 1], Flat(messages));
    assert forall s :: 0 <= s < |Flat(rest)| ==> flat[s] == Flat(rest)[s];
    assert forall i :: 0 <= i < |rest| ==> rest[i] == messages[i];
  }

  lemma LastTaken(before: seq<Packet>, message: seq<Packet>)
    requires WellSent(message) && Run(before) == [] && Consecutive(before + message)
    ensures Run(before + message) == [] && |Outputs(before + message)| == |Outputs(before)| + 1
    ensures Outputs(before + message) == Outputs(before) + [Outputs(before + message)[|Outputs(before)|]]
    ensures Outputs(before + message)[|Outputs(before)|].words == Words(message)
  {
    hide Run, Outputs, Words, Joins, Ends, Consecutive;
    var k := |message| - 1;
    var (taken, p) := (before + message[..k], message[k]);
    assert before + message == taken + [p] && message == message[..k] + [p];
    PartTaken(before, message, k);
    TakenJoins(before, message, k);
    TakeEnd(taken, p, message[..k]);
  }

  /** The packet of a message that ends it. */
  lemma TakeEnd(taken: seq<Packet>, p: Packet, part: seq<Packet>)
    requires (Run(taken) == [] || Joins(taken, p)) && Ends(p) && Words(Run(taken)) == Words(part)
    ensures Run(taken + [p]) == [] && |Outputs(taken + [p])| == |Outputs(taken)| + 1
    ensures Outputs(taken + [p]) == Outputs(taken) + [Outputs(taken + [p])[|Outputs(taken)|]]
    ensures Outputs(taken + [p])[|Outputs(taken)|].words == Words(part + [p])
  {
    hide Run, Outputs, Words, Joins;
    OutputsConcat(taken, p);
    WordsGrow(Run(taken), p);
    WordsGrow(part, p);
    RunHasWords([]);
  }

  // ----- restarts -----

  /** A received packet, and the restart of the sender that numbered it. */
  datatype Arrival = Arrival(epoch: nat, packet: Packet)

  function Packets(arrivals: seq<Arrival>): (packets: seq<Packet>)
    ensures |packets| == |arrivals| && forall i :: 0 <= i < |arrivals| ==> packets[i] == arrivals[i].packet
  {
    if arrivals == [] then [] else Packets(arrivals[..|arrivals| - 1]) + [arrivals[|arrivals| - 1].packet]
  }

  /** Of each restart the first packet received is its packet zero. */
  predicate Announced(arrivals: seq<Arrival>) {
    forall i :: 0 < i < |arrivals| && arrivals[i].epoch != arrivals[i - 1].epoch ==> arrivals[i].packet.sequence == 0
  }

  /** What the ingress accepts of what arrives. */
  function Taken(arrivals: seq<Arrival>): seq<Arrival> {
    if arrivals == [] then []
    else
      var (taken, a) := (Taken(arrivals[..|arrivals| - 1]), arrivals[|arrivals| - 1]);
      if Admits(Packets(taken), a.packet) then taken + [a] else taken
  }

  lemma {:induction false} TakenAnnounced(arrivals: seq<Arrival>)
    requires Announced(arrivals)
    ensures Announced(Taken(arrivals))
    ensures arrivals != [] ==>
      Taken(arrivals) != [] && Taken(arrivals)[|Taken(arrivals)| - 1].epoch == arrivals[|arrivals| - 1].epoch
  {
    if arrivals != [] {
      var (rest, a) := (arrivals[..|arrivals| - 1], arrivals[|arrivals| - 1]);
      TakenAnnounced(rest);
      assert rest != [] ==> rest[|rest| - 1] == arrivals[|arrivals| - 2];
      TakenOne(Taken(rest), a);
    }
  }

  lemma TakenOne(taken: seq<Arrival>, a: Arrival)
    requires Announced(taken) && (taken != [] && a.epoch != taken[|taken| - 1].epoch ==> a.packet.sequence == 0)
    ensures Announced(taken + [a])
    ensures taken == [] || a.epoch != taken[|taken| - 1].epoch ==> Admits(Packets(taken), a.packet)
  {
  }

  ghost predicate Origins(arrivals: seq<Arrival>, senders: seq<seq<seq<Packet>>>) {
    && (forall e :: 0 <= e < |senders| ==> Sender(senders[e]))
    && forall i :: 0 <= i < |arrivals| ==>
      arrivals[i].epoch < |senders| && GenuineOne(arrivals[i].packet, senders[arrivals[i].epoch])
  }

  predicate GenuineOne(p: Packet, messages: seq<seq<Packet>>) {
    p.sequence < |Flat(messages)| && p == Flat(messages)[p.sequence]
  }

  /** What the ingress accepts is as genuine as what arrives. */
  lemma {:induction false} TakenOrigins(arrivals: seq<Arrival>, senders: seq<seq<seq<Packet>>>)
    requires Origins(arrivals, senders)
    ensures Origins(Taken(arrivals), senders)
  {
    hide Sender, GenuineOne, Admits, Packets;
    if arrivals != [] {
      TakenOrigins(arrivals[..|arrivals| - 1], senders);
    }
  }

  /** With packet `i` another restart goes on where the message in progress stood. */
  predicate SilentJoin(taken: seq<Arrival>, i: nat)
    requires 0 < i < |taken|
  {
    && taken[i].epoch != taken[i - 1].epoch
    && Joins(Packets(taken[..i]), taken[i].packet) && Run(Packets(taken[..i])) != []
  }

  /** What the accepted packet `k` completes. */
  function CompletedAt(taken: seq<Arrival>, k: nat): Option<Message>
    requires k < |taken|
  {
    Completed(Packets(taken[..k]), taken[k].packet)
  }

  /** Where the message completed at `k` begins. */
  function Begin(taken: seq<Arrival>, k: nat): (i: int)
    requires k < |taken|
  {
    k + 1 - |Extended(Packets(taken[..k]), taken[k].packet)|
  }

  /** All packets of the message completed at `k` come from one restart of the sender. */
  predicate OneRestart(taken: seq<Arrival>, k: nat)
    requires k < |taken|
  {
    forall i :: 0 <= i <= k && Begin(taken, k) <= i ==> taken[i].epoch == taken[k].epoch
  }

  lemma {:induction false} PacketsPrefix(arrivals: seq<Arrival>, k: nat)
    requires k <= |arrivals|
    ensures Packets(arrivals[..k]) == Packets(arrivals)[..k]
  {
  }

  /** A message in progress was in progress at each of its packets. */
  lemma {:induction false} RunPrefix(accepted: seq<Packet>, i: nat)
    requires i <= |accepted| && |accepted| - |Run(accepted)| < i
    ensures |Run(accepted)| <= |accepted| && Run(accepted[..i]) == accepted[|accepted| - |Run(accepted)|..i]
  {
    RunIsGapFree(accepted);
    if i == |accepted| {
      assert accepted[..i] == accepted;
    } else {
      RunPrefix(accepted[..|accepted| - 1], i);
      assert accepted[..|accepted| - 1][..i] == accepted[..i];
    }
  }

  /** Inside a completed message every change of restart is a silent join. */
  lemma ChangeIsSilent(taken: seq<Arrival>, k: nat, i: nat)
    requires k < |taken| && CompletedAt(taken, k).Some? && 0 < i <= k && Begin(taken, k) < i
    requires taken[i].epoch != taken[i - 1].epoch
    ensures SilentJoin(taken, i)
  {
    hide Run, Extended, Words;
    var (accepted, p) := (Packets(taken[..k]), taken[k].packet);
    var run := Extended(accepted, p);
    CompletedIsARun(accepted, p);
    PacketsPrefix(taken[..k], i);
    assert taken[..k][..i] == taken[..i];
    var at := i - (k + 1 - |run|);
    assert run[at] == taken[i].packet && run[at - 1] == taken[i - 1].packet;
    assert run[at].sequence == run[at - 1].sequence + 1;
    ExtendedKeeps(accepted, p);
    RunPrefix(accepted, i);
  }

  lemma ExtendedKeeps(accepted: seq<Packet>, p: Packet)
    requires |Extended(accepted, p)| > 1
    ensures |Extended(accepted, p)| == |Run(accepted)| + 1
  {
  }

  /** A completed message comes from one restart if and only if none of its packets after the
      first is a silent join. Neither a restart that is announced by its packet zero, nor one
      that begins with a gap or with refused packets, is one. */
  lemma {:induction false} OneRestartExactly(taken: seq<Arrival>, k: nat)
    requires k < |taken| && CompletedAt(taken, k).Some?
    ensures OneRestart(taken, k) <==> SilentFree(taken, k)
  {
    hide SilentJoin, CompletedAt, Begin;
    if forall i :: 0 < i <= k && Begin(taken, k) < i ==> !SilentJoin(taken, i) {
      forall i | 0 <= i <= k && Begin(taken, k) <= i ensures taken[i].epoch == taken[k].epoch {
        NoChange(taken, k, i);
      }
    }
    forall i | 0 < i <= k && Begin(taken, k) < i && SilentJoin(taken, i) ensures !OneRestart(taken, k) {
      SilentChanges(taken, i);
    }
  }

  lemma SilentChanges(taken: seq<Arrival>, i: nat)
    requires 0 < i < |taken| && SilentJoin(taken, i)
    ensures taken[i].epoch != taken[i - 1].epoch
  {
  }

  lemma {:induction false} NoChange(taken: seq<Arrival>, k: nat, i: nat)
    requires k < |taken| && CompletedAt(taken, k).Some? && i <= k && Begin(taken, k) <= i
    requires forall j :: 0 < j <= k && Begin(taken, k) < j ==> !SilentJoin(taken, j)
    ensures taken[i].epoch == taken[k].epoch
    decreases k - i
  {
    hide SilentJoin, CompletedAt, Begin;
    if i < k {
      NoChange(taken, k, i + 1);
      if taken[i + 1].epoch != taken[i].epoch {
        ChangeIsSilent(taken, k, i + 1);
      }
    }
  }

  /** After a silent join, nothing need be lost for a message of two restarts to come out: the
      packets that follow in order, up to the next end of a message. */
  lemma SilentJoinMixes(taken: seq<Arrival>, i: nat, k: nat)
    requires 0 < i <= k < |taken| && SilentJoin(taken, i)
    requires forall j :: i < j <= k ==> Joins(Packets(taken[..j]), taken[j].packet)
    requires forall j :: i <= j < k ==> !Ends(taken[j].packet)
    requires Ends(taken[k].packet)
    ensures CompletedAt(taken, k).Some? && Begin(taken, k) < i && !OneRestart(taken, k)
  {
    hide Run, Extended, Words;
    StillRunning(taken, i, k);
    var accepted := Packets(taken[..k]);
    LongExtended(accepted, taken[k].packet);
    assert Begin(taken, k) == k - |Run(accepted)|;
    assert Begin(taken, k) <= i - 1;
    RunIsGapFree(accepted);
  }

  lemma LongExtended(accepted: seq<Packet>, p: Packet)
    requires Joins(accepted, p) && Run(accepted) != []
    ensures Extended(accepted, p) == Run(accepted) + [p]
  {
  }

  lemma {:induction false} StillRunning(taken: seq<Arrival>, i: nat, k: nat)
    requires 0 < i <= k < |taken| && Run(Packets(taken[..i])) != []
    requires forall j :: i <= j <= k ==> Joins(Packets(taken[..j]), taken[j].packet)
    requires forall j :: i <= j < k ==> !Ends(taken[j].packet)
    ensures |Run(Packets(taken[..k]))| == |Run(Packets(taken[..i]))| + (k - i)
  {
    hide Run, Joins, Ends;
    if i < k {
      StillRunning(taken, i, k - 1);
      assert taken[..k][..k - 1] == taken[..k - 1];
      var before := Packets(taken[..k - 1]);
      assert Packets(taken[..k]) == before + [taken[k - 1].packet];
      RunUnfold(before, taken[k - 1].packet);
      LongExtended(before, taken[k - 1].packet);
    }
  }

  /** A message of one restart is a whole-packet suffix of one message that restart sent. */
  lemma OneRestartWasSent(taken: seq<Arrival>, k: nat, senders: seq<seq<seq<Packet>>>)
    requires Origins(taken, senders) && k < |taken| && CompletedAt(taken, k).Some? && OneRestart(taken, k)
    ensures FromOne(CompletedAt(taken, k).value, senders[taken[k].epoch])
  {
    hide Completed, Extended, Words, Sender, Genuine, Consecutive, FromOne, GenuineOne;
    var (accepted, p, messages) := (Packets(taken[..k]), taken[k].packet, senders[taken[k].epoch]);
    var run := Extended(accepted, p);
    CompletedIsARun(accepted, p);
    forall i | 0 <= i < |run| ensures GenuineOne(run[i], messages) {
      assert run[i] == taken[Begin(taken, k) + i].packet;
    }
    AllGenuine(run, messages);
    EmittedWasSent(accepted, p, messages);
  }

  /** No message that is completed has a silent join after its first packet. */
  ghost predicate Unmixed(taken: seq<Arrival>) {
    forall k :: 0 <= k < |taken| && CompletedAt(taken, k).Some? ==> SilentFree(taken, k)
  }

  ghost predicate SilentFree(taken: seq<Arrival>, k: nat)
    requires k < |taken|
  {
    forall i :: 0 < i <= k && Begin(taken, k) < i ==> !SilentJoin(taken, i)
  }

  /** Whatever arrives over restarts, with loss, repetition and reordering: every message that
      comes out is of one restart if and only if no silent join is inside a completed message,
      and then each is a whole-packet suffix of one message that this restart sent. */
  lemma EmittedOverRestarts(arrivals: seq<Arrival>, senders: seq<seq<seq<Packet>>>)
    requires Origins(arrivals, senders)
    ensures var taken := Taken(arrivals);
      && (Unmixed(taken) <==> forall k :: 0 <= k < |taken| && CompletedAt(taken, k).Some? ==> OneRestart(taken, k))
      && (Unmixed(taken) ==>
            forall out :: out in Outputs(Packets(taken)) ==> exists e :: 0 <= e < |senders| && FromOne(out, senders[e]))
  {
    hide Origins, SilentJoin, SilentFree, Outputs, FromOne, CompletedAt, OneRestart, Begin;
    var taken := Taken(arrivals);
    TakenOrigins(arrivals, senders);
    forall k | 0 <= k < |taken| && CompletedAt(taken, k).Some? ensures OneRestart(taken, k) <==> SilentFree(taken, k) {
      OneRestartExactly(taken, k);
    }
    if Unmixed(taken) {
      forall out | out in Outputs(Packets(taken)) ensures exists e :: 0 <= e < |senders| && FromOne(out, senders[e]) {
        var k := OutputsComplete(taken, out);
        OneRestartWasSent(taken, k, senders);
        KnownEpoch(taken, senders, k);
      }
    }
  }

  lemma KnownEpoch(taken: seq<Arrival>, senders: seq<seq<seq<Packet>>>, k: nat)
    requires Origins(taken, senders) && k < |taken|
    ensures taken[k].epoch < |senders|
  {
  }

  /** Every output was completed by one of the packets taken in. */
  lemma {:induction false} OutputsComplete(taken: seq<Arrival>, out: Message) returns (k: nat)
    requires out in Outputs(Packets(taken))
    ensures k < |taken| && CompletedAt(taken, k) == Some(out)
  {
    hide Completed;
    var n := |taken| - 1;
    var (rest, a) := (taken[..n], taken[n]);
    assert Packets(taken) == Packets(rest) + [a.packet];
    OutputsGrow(Packets(rest), a.packet);
    if out in Outputs(Packets(rest)) {
      k := OutputsComplete(rest, out);
      assert rest[..k] == taken[..k];
    } else {
      k := n;
    }
  }

  /** Restarts announced by their packet zero never join silently, whatever else is lost. */
  lemma AnnouncedIsNotSilent(arrivals: seq<Arrival>)
    requires Announced(arrivals)
    ensures Unmixed(Taken(arrivals))
  {
    hide Run;
    TakenAnnounced(arrivals);
  }

  lemma AllGenuine(run: seq<Packet>, messages: seq<seq<Packet>>)
    requires forall i :: 0 <= i < |run| ==> GenuineOne(run[i], messages)
    ensures Genuine(run, messages)
  {
    forall i | 0 <= i < |run|
      ensures run[i].sequence < |Flat(messages)| && run[i] == Flat(messages)[run[i].sequence]
    {
      assert GenuineOne(run[i], messages);
    }
  }

  /** Two arrivals of two restarts whose packets join into words that neither restart sent. */
  ghost predicate Mixed(arrivals: seq<Arrival>, senders: seq<seq<seq<Packet>>>) {
    && |arrivals| == 2 && arrivals[0].epoch != arrivals[1].epoch && Origins(arrivals, senders)
    && Completed([arrivals[0].packet], arrivals[1].packet).Some?
    && forall e :: 0 <= e < |senders| ==>
         NobodySent(Completed([arrivals[0].packet], arrivals[1].packet).value.words, senders[e])
  }

  predicate NobodySent(words: seq<Word>, messages: seq<seq<Packet>>) {
    forall j :: 0 <= j < |messages| ==> !IsTail(words, messages[j])
  }

  const BEFORE: seq<Packet> := [Packet(0, 0, [7]), Packet(1, 1, [8])]
  const AFTERWARDS: seq<Packet> := [Packet(0, 0, [6]), Packet(1, 1, [9])]

  /** When a restart's packet zero is lost, packets of two restarts can join: a message comes
      out that nobody sent. */
  lemma LostRestartMixes()
    ensures exists arrivals, senders :: Mixed(arrivals, senders) && SilentJoin(arrivals, 1)
  {
    hide Origins, Completed, IsTail;
    var senders := [[BEFORE], [AFTERWARDS]];
    var arrivals := [Arrival(0, BEFORE[0]), Arrival(1, AFTERWARDS[1])];
    BothGenuine(arrivals, senders);
    Joined(BEFORE[0], AFTERWARDS[1]);
    assert BEFORE[0].words + AFTERWARDS[1].words == [7, 9];
    assert (BEFORE[0].words + BEFORE[1].words)[1] == 8 && (AFTERWARDS[0].words + AFTERWARDS[1].words)[0] == 6;
    TailsOfTwo(BEFORE, [7, 9]);
    TailsOfTwo(AFTERWARDS, [7, 9]);
    assert NobodySent([7, 9], senders[0]) && NobodySent([7, 9], senders[1]);
    assert Mixed(arrivals, senders);
    SecondJoins(arrivals);
  }

  lemma SecondJoins(arrivals: seq<Arrival>)
    requires |arrivals| == 2 && arrivals[0].packet.words != [] && !Ends(arrivals[0].packet)
    requires arrivals[1].packet.sequence == arrivals[0].packet.sequence + 1 && arrivals[1].epoch != arrivals[0].epoch
    ensures SilentJoin(arrivals, 1)
  {
    var first := arrivals[0].packet;
    assert arrivals[..1][..0] == [] && Packets(arrivals[..1]) == [first];
    assert [first][..0] == [] && Run([first]) == Extended([], first) == [first];
  }

  lemma BothGenuine(arrivals: seq<Arrival>, senders: seq<seq<seq<Packet>>>)
    requires senders == [[BEFORE], [AFTERWARDS]]
    requires arrivals == [Arrival(0, BEFORE[0]), Arrival(1, AFTERWARDS[1])]
    ensures Origins(arrivals, senders)
  {
    OneMessage(BEFORE);
    OneMessage(AFTERWARDS);
    hide Sender, Flat;
  }

  /** A packet with words, and the next in sequence that ends a message. */
  lemma Joined(first: Packet, second: Packet)
    requires second.sequence == first.sequence + 1 && first.words != [] && !Ends(first) && Ends(second)
    ensures Completed([first], second) == Some(Message(first.sequence, second.sequence, first.words + second.words))
  {
    assert [first][..0] == [] && Run([first]) == Extended([], first) == [first];
    assert Extended([first], second) == [first, second];
    TwoWords(first, second);
  }

  /** The tails of a message of two packets with a word each. */
  lemma TailsOfTwo(message: seq<Packet>, words: seq<Word>)
    requires |message| == 2 && |message[0].words| == |message[1].words| == 1
    requires words != message[0].words + message[1].words && words != message[1].words
    ensures !IsTail(words, message)
  {
    TwoWords(message[0], message[1]);
    assert Last(message, 2) == [message[0], message[1]] && Last(message, 1) == [message[1]];
    assert [message[1]][..0] == [];
  }

  lemma OneMessage(message: seq<Packet>)
    requires |message| == 2 && message[0].sequence == 0 && message[1].sequence == 1
    requires !Ends(message[0]) && Ends(message[1])
    ensures Sender([message]) && Flat([message]) == message
  {
    assert [message][..0] == [];
    assert Flat([message]) == Flat([]) + message == message;
    assert WellSent(message);
  }

  lemma TwoWords(a: Packet, b: Packet)
    ensures Words([a, b]) == a.words + b.words
  {
    assert [a, b][..1] == [a] && [a][..0] == [];
    assert Words([a]) == a.words;
  }
}
