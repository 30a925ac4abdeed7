/**
  Streaming refines batch parsing: however the text is cut into chunks, pushing
  the chunks and finishing gives what parsing the whole text gives.
 */
module QwenChunking {
  import opened Wrappers
  import opened Strings
  import opened QwenBlocks
  import opened QwenToolCalls

  /** One visible character or one tool call.  Atoms forget how text is split into deltas. */
  datatype Atom = Shown(c: char) | Called(call: Event)

  function Characters(text: string): seq<Atom> {
    seq(|text|, i requires 0 <= i < |text| => Shown(text[i]))
  }

  function EventAtoms(event: Event): seq<Atom> {
    match event
    case TextDelta(text) => Characters(text)
    case ToolCall(_, _, _) => [Called(event)]
  }

  function Atoms(events: seq<Event>): seq<Atom> {
    if events == [] then []
    else Atoms(events[..|events| - 1]) + EventAtoms(events[|events| - 1])
  }

  /** Batch parsing of a whole text: every complete block is read, the rest is shown. */
  function Parse(read: BlockReader, text: string, used: nat): seq<Atom>
    decreases |text|
  {
    match Find(text, OPEN)
    case None => Characters(text)
    case Some(start) =>
      match Find(text[start..], CLOSE)
      case None => Characters(text)
      case Some(endStart) =>
        var end := start + endStart + |CLOSE|;
        Characters(text[..start]) + EventAtoms(read(text[start..end], used + 1)) + Parse(read, text[end..], used + 1)
  }

  lemma NoAtoms()
    ensures Atoms([]) == []
  {
  }

  lemma AtomsAdd(events: seq<Event>, event: Event)
    ensures Atoms(events + [event]) == Atoms(events) + EventAtoms(event)
  {
    assert (events + [event])[..|events|] == events;
  }

  lemma AtomsAddText(events: seq<Event>, text: string)
    ensures Atoms(events + TextEvent(text)) == Atoms(events) + Characters(text)
  {
    if text == "" {
      assert events + [] == events;
      assert Characters(text) == [];
    } else {
      AtomsAdd(events, TextDelta(text));
    }
  }

  /** Text in front of the first place where a tag can start is simply shown. */
  lemma ParseSkip(read: BlockReader, text: string, len: nat, used: nat)
    requires len <= |text| && NoMatchBefore(text, OPEN, len)
    ensures Parse(read, text, used) == Characters(text[..len]) + Parse(read, text[len..], used)
  {
    hide Find, Characters, EventAtoms;
    var front, rest := text[..len], text[len..];
    FindShift(text, OPEN, len);
    match Find(text, OPEN)
    case None =>
      CharactersJoin(text, len);
    case Some(start) =>
      assert text[start..] == rest[start - len..];
      match Find(text[start..], CLOSE) {
        case None =>
          CharactersJoin(text, len);
        case Some(endStart) =>
          var end := start + endStart + |CLOSE|;
          CharactersJoin(text[..start], len);
          assert text[..start][..len] == front && text[..start][len..] == rest[..start - len];
          assert text[start..end] == rest[start - len..end - len];
          assert text[end..] == rest[end - len..];
          var call, more := EventAtoms(read(text[start..end], used + 1)), Parse(read, text[end..], used + 1);
          assert Characters(front) + Characters(rest[..start - len]) + call + more
              == Characters(front) + (Characters(rest[..start - len]) + call + more);
      }
  }

  lemma CharactersJoin(text: string, at: nat)
    requires at <= |text|
    ensures Characters(text) == Characters(text[..at]) + Characters(text[at..])
  {
  }

  // ----- The hold-back -----

  /** The opening tag has its only '<' in front and its only '>' at the end. */
  lemma OpenTagShape(i: nat)
    requires i < |OPEN|
    ensures (OPEN[i] == '<') == (i == 0) && (OPEN[i] == '>') == (i == |OPEN| - 1)
  {
  }

  /** Text that has been declared safe never contains the start of a tag that later text completes. */
  lemma SafePrefixHoldsBack(text: string, future: string)
    requires Find(text, OPEN) == None
    ensures NoMatchBefore(text + future, OPEN, SafePrefixLen(text))
  {
    var len, whole := SafePrefixLen(text), text + future;
    forall k: nat | k < len
      ensures !MatchesAt(whole, OPEN, k)
    {
      if MatchesAt(whole, OPEN, k) {
        TagStartIsHeld(text, future, k);
      }
    }
  }

  lemma TagStartIsHeld(text: string, future: string, k: nat)
    requires Find(text, OPEN) == None
    requires k < |text| && MatchesAt(text + future, OPEN, k)
    ensures SafePrefixLen(text) <= k
  {
    var whole := text + future;
    FindSpec(text, OPEN);
    if k + |OPEN| <= |text| {
      MatchesAtExtend(text, future, OPEN, k);
    }
    forall i: nat | k <= i < |text|
      ensures text[i] == OPEN[i - k]
    {
      assert whole[k..k + |OPEN|][i - k] == whole[i];
    }
    OpenTagShape(0);
    assert text[k] == '<';
    var last := FindLastChar(text, '<').value;
    OpenTagShape(last - k);
    assert last == k;
    forall i | 0 <= i < |text[k..]|
      ensures text[k..][i] != '>'
    {
      OpenTagShape(i);
    }
    AbsentCharacter(text[k..], '>');
  }

  // ----- One push -----

  /**
    A push moves the cut between "already reported" and "still to parse"
    without changing what the whole text means, whatever text follows.
   */
  lemma {:induction false} DrainRefinesParse(
    read: BlockReader, text: string, events: seq<Event>, used: nat, future: string)
    ensures
      var p := Drain(read, text, events, used);
      Atoms(p.events) + Parse(read, p.pending + future, p.used)
      == Atoms(events) + Parse(read, text + future, used)
    decreases |text|
  {
    hide Find, SafePrefixLen, IsSafePrefix, Atoms, Characters, Parse, EventAtoms;
    var whole := text + future;
    match Find(text, OPEN)
    case Some(start) =>
      var before, fromTag := text[..start], text[start..];
      AtomsAddText(events, before);
      FindExtend(text, future, OPEN);
      FoundFirst(text);
      FoundFirst(whole);
      ParseSkip(read, whole, start, used);
      assert whole[..start] == before && whole[start..] == fromTag + future;
      match Find(fromTag, CLOSE) {
        case Some(endStart) =>
          var end := endStart + |CLOSE|;
          var shown, event := events + TextEvent(before), read(fromTag[..end], used + 1);
          ParseBlockFirst(read, fromTag, future, used);
          AtomsAdd(shown, event);
          DrainRefinesParse(read, fromTag[end..], shown + [event], used + 1, future);
          var after := Parse(read, fromTag[end..] + future, used + 1);
          assert Atoms(events) + Characters(before) + EventAtoms(event) + after
              == Atoms(events) + (Characters(before) + (EventAtoms(event) + after));
        case None =>
          assert Atoms(events) + Characters(before) + Parse(read, fromTag + future, used)
              == Atoms(events) + (Characters(before) + Parse(read, fromTag + future, used));
      }
    case None =>
      var len := SafePrefixLen(text);
      AtomsAddText(events, text[..len]);
      SafePrefixHoldsBack(text, future);
      ParseSkip(read, whole, len, used);
      assert whole[..len] == text[..len] && whole[len..] == text[len..] + future;
      assert Atoms(events) + Characters(text[..len]) + Parse(read, whole[len..], used)
          == Atoms(events) + (Characters(text[..len]) + Parse(read, whole[len..], used));
  }

  lemma FoundFirst(text: string)
    requires Find(text, OPEN).Some?
    ensures NoMatchBefore(text, OPEN, Find(text, OPEN).value)
    ensures MatchesAt(text[Find(text, OPEN).value..], OPEN, 0)
  {
    FindSpec(text, OPEN);
    var start := Find(text, OPEN).value;
    assert text[start..][0..|OPEN|] == text[start..start + |OPEN|];
  }

  /** A complete block in front is read first. */
  lemma ParseBlockFirst(read: BlockReader, fromTag: string, future: string, used: nat)
    requires MatchesAt(fromTag, OPEN, 0) && Find(fromTag, CLOSE).Some?
    ensures
      var end := Find(fromTag, CLOSE).value + |CLOSE|;
      Parse(read, fromTag + future, used)
      == EventAtoms(read(fromTag[..end], used + 1)) + Parse(read, fromTag[end..] + future, used + 1)
  {
    hide Find, MatchesAt, EventAtoms, Parse;
    var whole := fromTag + future;
    var end := Find(fromTag, CLOSE).value + |CLOSE|;
    FindExtend(fromTag, future, CLOSE);
    MatchesAtExtend(fromTag, future, OPEN, 0);
    FindIs(whole, OPEN, 0);
    assert whole[..end] == fromTag[..end] && whole[end..] == fromTag[end..] + future;
    ParseAtTag(read, whole, used);
  }

  /** Parsing a text that starts with a block. */
  lemma ParseAtTag(read: BlockReader, text: string, used: nat)
    requires Find(text, OPEN) == Some(0) && Find(text, CLOSE).Some?
    ensures
      var end := Find(text, CLOSE).value + |CLOSE|;
      Parse(read, text, used) == EventAtoms(read(text[..end], used + 1)) + Parse(read, text[end..], used + 1)
  {
    hide Find, EventAtoms;
    assert text[0..] == text && Characters(text[..0]) == [];
    var end := Find(text, CLOSE).value + |CLOSE|;
    assert text[0..end] == text[..end];
    assert [] + EventAtoms(read(text[..end], used + 1)) == EventAtoms(read(text[..end], used + 1));
  }

  // ----- Whole runs -----

  /** Some chunks pushed one after another. */
  function PushAll(read: BlockReader, pending: string, used: nat, chunks: seq<string>): Progress
    decreases |chunks|
  {
    if chunks == [] then Progress([], pending, used)
    else
      var first := Drain(read, pending + chunks[0], [], used);
      var more := PushAll(read, first.pending, first.used, chunks[1..]);
      Progress(first.events + more.events, more.pending, more.used)
  }

  /** Everything a fresh decoder reports for a list of chunks, including what finishing adds. */
  function Stream(read: BlockReader, chunks: seq<string>): seq<Event> {
    var p := PushAll(read, "", 0, chunks);
    p.events + TextEvent(p.pending)
  }

  /** Pending text never holds a complete block. */
  ghost predicate Waiting(pending: string) {
    match Find(pending, OPEN)
    case None => true
    case Some(start) => Find(pending[start..], CLOSE) == None
  }

  lemma {:induction false} AtomsSplit(left: seq<Event>, right: seq<Event>)
    ensures Atoms(left + right) == Atoms(left) + Atoms(right)
  {
    hide EventAtoms;
    if right == [] {
      assert left + right == left;
    } else {
      AtomsSplit(left, right[..|right| - 1]);
      assert (left + right)[..|left + right| - 1] == left + right[..|right| - 1];
    }
  }

  lemma {:induction false} DrainWaits(read: BlockReader, text: string, events: seq<Event>, used: nat)
    ensures Waiting(Drain(read, text, events, used).pending)
    decreases |text|
  {
    match Find(text, OPEN)
    case Some(start) =>
      var fromTag := text[start..];
      FoundFirst(text);
      FindIs(fromTag, OPEN, 0);
      assert fromTag[0..] == fromTag;
      match Find(fromTag, CLOSE) {
        case Some(endStart) =>
          var end := endStart + |CLOSE|;
          DrainWaits(read, fromTag[end..], events + TextEvent(text[..start]) + [read(fromTag[..end], used + 1)], used + 1);
        case None =>
      }
    case None =>
      FindSpec(text, OPEN);
      FindShiftNone(text, SafePrefixLen(text));
  }

  lemma FindShiftNone(text: string, len: nat)
    requires len <= |text| && Find(text, OPEN) == None
    ensures Find(text[len..], OPEN) == None
  {
    FindSpec(text, OPEN);
    FindShift(text, OPEN, len);
  }

  lemma PendingIsText(read: BlockReader, pending: string, used: nat)
    requires Waiting(pending)
    ensures Atoms([]) + Characters(pending) == Parse(read, pending, used)
  {
  }

  lemma {:induction false} PushAllRefinesParse(read: BlockReader, pending: string, used: nat, chunks: seq<string>)
    requires Waiting(pending)
    ensures
      var p := PushAll(read, pending, used, chunks);
      && Waiting(p.pending)
      && Atoms(p.events) + Characters(p.pending) == Parse(read, pending + Concat(chunks), used)
    decreases |chunks|
  {
    hide Drain, Atoms, Characters;
    if chunks == [] {
      assert pending + Concat(chunks) == pending;
      PendingIsText(read, pending, used);
    } else {
      var first := Drain(read, pending + chunks[0], [], used);
      var rest := PushAll(read, first.pending, first.used, chunks[1..]);
      DrainWaits(read, pending + chunks[0], [], used);
      DrainRefinesParse(read, pending + chunks[0], [], used, Concat(chunks[1..]));
      PushAllRefinesParse(read, first.pending, first.used, chunks[1..]);
      AtomsSplit(first.events, rest.events);
      NoAtoms();
      assert Atoms(first.events) + Atoms(rest.events) + Characters(rest.pending)
          == Atoms(first.events) + (Atoms(rest.events) + Characters(rest.pending));
      assert pending + chunks[0] + Concat(chunks[1..]) == pending + Concat(chunks);
    }
  }

  /** Main result: under every chunking, the stream reports what batch parsing reports. */
  lemma StreamingRefinesParse(read: BlockReader, chunks: seq<string>)
    ensures Atoms(Stream(read, chunks)) == Parse(read, Concat(chunks), 0)
  {
    FindIsNone("", OPEN);
    var p := PushAll(read, "", 0, chunks);
    PushAllRefinesParse(read, "", 0, chunks);
    AtomsAddText(p.events, p.pending);
    assert "" + Concat(chunks) == Concat(chunks);
  }

  /** Two ways of cutting the same text give the same calls, identifiers, order and text. */
  lemma ChunkingIsInvisible(read: BlockReader, chunks: seq<string>, otherChunks: seq<string>)
    requires Concat(chunks) == Concat(otherChunks)
    ensures Atoms(Stream(read, chunks)) == Atoms(Stream(read, otherChunks))
  {
    StreamingRefinesParse(read, chunks);
    StreamingRefinesParse(read, otherChunks);
  }

  // ----- Nothing is lost -----

  /** Reports the source text of a block instead of reading it. */
  function RawBlocks(): BlockReader {
    (block: string, index: nat) => TextDelta(block)
  }

  function Texts(events: seq<Event>): string {
    if events == [] then ""
    else Texts(events[..|events| - 1]) + match events[|events| - 1] case TextDelta(text) => text case _ => ""
  }

  ghost predicate ReadsBlock(read: BlockReader, event: Event, block: string) {
    && MatchesAt(block, OPEN, 0)
    && EndsWith(block, CLOSE)
    && exists index: nat :: event == read(block, index)
  }

  /** An event reports a stretch of the input: it shows it, or it reads it as a complete block. */
  ghost predicate Reports(read: BlockReader, event: Event, stretch: Event) {
    && stretch.TextDelta?
    && (event == stretch || ReadsBlock(read, event, stretch.text))
  }

  ghost predicate ReportsAll(read: BlockReader, events: seq<Event>, stretches: seq<Event>) {
    && |events| == |stretches|
    && forall i | 0 <= i < |events| :: Reports(read, events[i], stretches[i])
  }

  /** Where the input is cut does not depend on how blocks are read. */
  lemma {:induction false} DrainLockstep(
    read: BlockReader, other: BlockReader, text: string, events: seq<Event>, others: seq<Event>, used: nat)
    ensures
      var p, q := Drain(read, text, events, used), Drain(other, text, others, used);
      p.pending == q.pending && p.used == q.used
    decreases |text|
  {
    hide Find, SafePrefixLen, IsSafePrefix;
    match Find(text, OPEN)
    case Some(start) =>
      var before, fromTag := TextEvent(text[..start]), text[start..];
      match Find(fromTag, CLOSE) {
        case Some(endStart) =>
          var end := endStart + |CLOSE|;
          var block := fromTag[..end];
          DrainLockstep(read, other, fromTag[end..], events + before + [read(block, used + 1)],
                        others + before + [other(block, used + 1)], used + 1);
        case None =>
      }
    case None =>
  }

  lemma {:induction false} DrainReports(read: BlockReader, text: string, events: seq<Event>, stretches: seq<Event>, used: nat)
    requires ReportsAll(read, events, stretches)
    ensures ReportsAll(read, Drain(read, text, events, used).events, Drain(RawBlocks(), text, stretches, used).events)
    decreases |text|
  {
    hide Find, SafePrefixLen, IsSafePrefix, ReportsAll, Texts, MatchesAt;
    match Find(text, OPEN)
    case Some(start) =>
      var before, fromTag := text[..start], text[start..];
      var shown, raw := events + TextEvent(before), stretches + TextEvent(before);
      ReportsAddText(read, events, stretches, before);
      FoundFirst(text);
      match Find(fromTag, CLOSE) {
        case Some(endStart) =>
          var end := endStart + |CLOSE|;
          var block := fromTag[..end];
          ReportsAddBlock(read, shown, raw, fromTag, used + 1);
          DrainReports(read, fromTag[end..], shown + [read(block, used + 1)], raw + [TextDelta(block)], used + 1);
        case None =>
      }
    case None =>
      ReportsAddText(read, events, stretches, text[..SafePrefixLen(text)]);
  }

  lemma {:induction false} RawDrainKeepsText(text: string, stretches: seq<Event>, used: nat)
    ensures
      var raw := Drain(RawBlocks(), text, stretches, used);
      Texts(raw.events) + raw.pending == Texts(stretches) + text
    decreases |text|
  {
    hide Find, SafePrefixLen, IsSafePrefix, Texts, MatchesAt;
    match Find(text, OPEN)
    case Some(start) =>
      var before, fromTag := text[..start], text[start..];
      var raw := stretches + TextEvent(before);
      TextsAddText(stretches, before);
      Reassemble(Texts(stretches), text, start);
      match Find(fromTag, CLOSE) {
        case Some(endStart) =>
          var end := endStart + |CLOSE|;
          TextsAddText(raw, fromTag[..end]);
          Reassemble(Texts(raw), fromTag, end);
          RawDrainKeepsText(fromTag[end..], raw + [TextDelta(fromTag[..end])], used + 1);
        case None =>
      }
    case None =>
      TextsAddText(stretches, text[..SafePrefixLen(text)]);
      Reassemble(Texts(stretches), text, SafePrefixLen(text));
  }

  lemma Reassemble(front: string, text: string, at: nat)
    requires at <= |text|
    ensures front + text[..at] + text[at..] == front + text
  {
  }

  lemma ReportsAddText(read: BlockReader, events: seq<Event>, stretches: seq<Event>, text: string)
    requires ReportsAll(read, events, stretches)
    ensures ReportsAll(read, events + TextEvent(text), stretches + TextEvent(text))
  {
  }

  lemma ReportsAddBlock(read: BlockReader, events: seq<Event>, stretches: seq<Event>, fromTag: string, index: nat)
    requires ReportsAll(read, events, stretches)
    requires Find(fromTag, CLOSE).Some? && MatchesAt(fromTag, OPEN, 0)
    ensures
      var block := fromTag[..Find(fromTag, CLOSE).value + |CLOSE|];
      ReportsAll(read, events + [read(block, index)], stretches + [TextDelta(block)])
  {
    BlockEnds(fromTag);
    var block := fromTag[..Find(fromTag, CLOSE).value + |CLOSE|];
    assert block[0..|OPEN|] == fromTag[0..|OPEN|];
    assert ReadsBlock(read, read(block, index), block);
  }

  lemma TextsAddText(events: seq<Event>, text: string)
    ensures Texts(events + TextEvent(text)) == Texts(events) + text
  {
    if text == "" {
      assert events + [] == events;
    } else {
      assert (events + [TextDelta(text)])[..|events|] == events;
    }
  }

  lemma BlockEnds(fromTag: string)
    requires Find(fromTag, CLOSE).Some? && MatchesAt(fromTag, OPEN, 0)
    ensures Find(fromTag, CLOSE).value >= |OPEN|
    ensures EndsWith(fromTag[..Find(fromTag, CLOSE).value + |CLOSE|], CLOSE)
  {
    FindSpec(fromTag, CLOSE);
    var at := Find(fromTag, CLOSE).value;
    assert fromTag[at..at + |CLOSE|] == CLOSE;
    assert fromTag[at] == CLOSE[0] && fromTag[at + 1] == CLOSE[1];
    assert fromTag[0..|OPEN|][1] == fromTag[1] == OPEN[1];
    if at < |OPEN| {
      assert fromTag[0..|OPEN|][at] == OPEN[at];
      OpenTagShape(at);
    }
  }

  lemma {:induction false} TextsSplit(left: seq<Event>, right: seq<Event>)
    ensures Texts(left + right) == Texts(left) + Texts(right)
  {
    if right == [] {
      assert left + right == left;
    } else {
      TextsSplit(left, right[..|right| - 1]);
      assert (left + right)[..|left + right| - 1] == left + right[..|right| - 1];
    }
  }

  /** At every point the shown text, the consumed blocks and the pending text are the input so far, in order. */
  lemma {:induction false} RunConservesInput(read: BlockReader, pending: string, used: nat, chunks: seq<string>)
    returns (stretches: seq<Event>)
    ensures
      var p := PushAll(read, pending, used, chunks);
      ReportsAll(read, p.events, stretches) && Texts(stretches) + p.pending == pending + Concat(chunks)
    decreases |chunks|
  {
    hide Drain, ReportsAll;
    if chunks == [] {
      stretches := [];
      NothingReported(read);
      assert "" + pending == pending + "";
    } else {
      var text := pending + chunks[0];
      var first := Drain(read, text, [], used);
      var front := Drain(RawBlocks(), text, [], used).events;
      NothingReported(read);
      DrainReports(read, text, [], [], used);
      RawDrainKeepsText(text, [], used);
      DrainLockstep(read, RawBlocks(), text, [], [], used);
      var back := RunConservesInput(read, first.pending, first.used, chunks[1..]);
      var p := PushAll(read, first.pending, first.used, chunks[1..]);
      stretches := front + back;
      TextsSplit(front, back);
      ReportsJoin(read, first.events, front, p.events, back);
      assert Texts(front) + Texts(back) + p.pending == Texts(front) + (Texts(back) + p.pending);
      assert Texts(front) + (first.pending + Concat(chunks[1..])) == "" + text + Concat(chunks[1..]);
      assert "" + text + Concat(chunks[1..]) == pending + (chunks[0] + Concat(chunks[1..]));
    }
  }

  lemma NothingReported(read: BlockReader)
    ensures ReportsAll(read, [], []) && Texts([]) == ""
  {
  }

  lemma ReportsJoin(read: BlockReader, events: seq<Event>, stretches: seq<Event>, more: seq<Event>, moreStretches: seq<Event>)
    requires ReportsAll(read, events, stretches) && ReportsAll(read, more, moreStretches)
    ensures ReportsAll(read, events + more, stretches + moreStretches)
  {
  }

  // ----- Every event says something -----

  ghost predicate SaySomething(events: seq<Event>) {
    forall e | e in events && e.TextDelta? :: e.text != ""
  }

  /** Main result: no push and no finish reports an empty text, as long as no block is read as one. */
  lemma {:induction false} DrainSaysSomething(read: BlockReader, text: string, events: seq<Event>, used: nat)
    requires SaySomething(events)
    requires forall block, n | |CLOSE| <= |block| :: SaySomething([read(block, n)])
    ensures SaySomething(Drain(read, text, events, used).events)
    ensures SaySomething(TextEvent(Drain(read, text, events, used).pending))
    decreases |text|
  {
    hide Find, SafePrefixLen, IsSafePrefix, Drain;
    DrainStep(read, text, events, used);
    match Find(text, OPEN)
    case None =>
    case Some(start) =>
      match Find(text[start..], CLOSE) {
        case None =>
        case Some(endStart) =>
          var end := endStart + |CLOSE|;
          var block := text[start..][..end];
          assert SaySomething([read(block, used + 1)]);
          assert read(block, used + 1) in [read(block, used + 1)];
          DrainSaysSomething(read, text[start..][end..], events + TextEvent(text[..start]) + [read(block, used + 1)], used + 1);
      }
  }

  /** A block is never read as an empty text. */
  lemma BlocksSaySomething(reader: JsonReader, block: string, n: nat)
    requires block != ""
    ensures SaySomething([BlockEvents(reader)(block, n)])
  {
    hide ParseBlock;
    ParsedIsCall(reader, block, ToolUseId(n));
  }

  lemma ParsedIsCall(reader: JsonReader, block: string, toolUseId: string)
    ensures ParseBlock(reader, block, toolUseId).Some? ==>
              ParseBlock(reader, block, toolUseId).value.ToolCall? && ParseBlock(reader, block, toolUseId).value.toolUseId == toolUseId
  {
    hide BlockHeader, ParseParameters;
  }
}
