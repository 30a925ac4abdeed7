/**
  Extracting lasting memories from a conversation
  (crates/quine-harness/src/memory_store.rs): what a message asks to remember or to
  forget, and the pass over a window of messages that applies it to the live records.
  Time stamps, titles and keywords of records are not part of the model.
 */
module MemoryStores {
  import opened Wrappers
  import opened Strings
  import opened Messages

  datatype MemorySource = Explicit | Heuristic

  datatype MemoryRecord = MemoryRecord(entryId: string, body: string, source: MemorySource)

  datatype Decision = Upsert(record: MemoryRecord) | Tombstone(entryId: string) | Ignore

  type Records = map<string, MemoryRecord>

  // ----- Reading a message -----

  function LowerChar(c: char): char {
    if 'A' <= c <= 'Z' then 'a' + (c - 'A') else c
  }

  function AsciiLowercase(text: string): (r: string)
    ensures |r| == |text|
  {
    seq(|text|, i requires 0 <= i < |text| => LowerChar(text[i]))
  }

  /** The trimmed text behind the first of the markers that is there and has something behind it. */
  function BehindMarker(text: string, lowercase: string, markers: seq<string>): (content: Option<string>)
    requires |lowercase| == |text|
    ensures content.Some? ==> content.value != ""
    decreases |markers|
  {
    if markers == [] then None
    else
      var rest := BehindMarker(text, lowercase, markers[1..]);
      match Find(lowercase, markers[0])
      case None => rest
      case Some(index) =>
        var content := Trim(text[index + |markers[0]|..]);
        if content != "" then Some(content) else rest
  }

  const REMEMBER_MARKERS := ["remember this:", "remember:", "please remember:"]
  const FORGET_MARKERS := ["forget this:", "forget:", "please forget:"]

  function ExplicitRemember(text: string): Option<string> {
    BehindMarker(text, AsciiLowercase(text), REMEMBER_MARKERS)
  }

  function ExplicitForget(text: string): Option<string> {
    BehindMarker(text, AsciiLowercase(text), FORGET_MARKERS)
  }

  function HeuristicMemory(text: string): Option<string> {
    if Contains(AsciiLowercase(text), "my preference is") then
      match Find(text, ":")
      case None => None
      case Some(index) =>
        var tail := Trim(text[index + 1..]);
        if tail != "" then Some(tail) else None
    else None
  }

  function IsExplicitIntent(message: Message): bool {
    match message.content
    case Text(text) => ExplicitRemember(Trim(text)).Some? || ExplicitForget(Trim(text)).Some?
    case _ => false
  }

  // ----- Facts -----

  predicate IsAsciiAlphanumeric(c: char) {
    'a' <= c <= 'z' || 'A' <= c <= 'Z' || '0' <= c <= '9'
  }

  /** The words of a text: maximal runs of letters and digits, in lower case. */
  function Words(text: string): seq<string> {
    if text == "" then []
    else if !IsAsciiAlphanumeric(text[0]) then Words(text[1..])
    else
      var len := WordLen(text);
      [AsciiLowercase(text[..len])] + Words(text[len..])
  }

  function WordLen(text: string): (len: nat)
    ensures len <= |text|
    ensures text != "" && IsAsciiAlphanumeric(text[0]) ==> len > 0
  {
    if text == "" || !IsAsciiAlphanumeric(text[0]) then 0 else 1 + WordLen(text[1..])
  }

  function JoinWords(words: seq<string>): string {
    if words == [] then ""
    else if |words| == 1 then words[0]
    else words[0] + "-" + JoinWords(words[1..])
  }

  /** The identity of a fact: its words, without case, punctuation and spacing. */
  function NormalizeFact(content: string): string {
    JoinWords(Words(Trim(content)))
  }

  function BuildRecord(content: string, source: MemorySource): MemoryRecord {
    MemoryRecord(NormalizeFact(content), Trim(content), source)
  }

  // ----- Decisions -----

  /** A live record whose body states the fact. */
  ghost predicate States(live: Records, entryId: string, fact: string) {
    entryId in live && NormalizeFact(live[entryId].body) == fact
  }

  ghost predicate NoneStates(live: Records, fact: string) {
    forall id | id in live :: !States(live, id, fact)
  }

  function HeuristicDecision(text: string, live: Records): Decision {
    match HeuristicMemory(text)
    case None => Ignore
    case Some(content) =>
      var record := BuildRecord(content, Heuristic);
      if record.entryId in live then Ignore else Upsert(record)
  }

  /**
    What the store may decide for a message.  When several live records state the
    fact to forget, any of them may be picked: records are kept in a hash map.
   */
  ghost predicate IsDecision(message: Message, live: Records, decision: Decision) {
    match message.content
    case Text(full) =>
      var text := Trim(full);
      if text == "" || message.role != User then decision == Ignore
      else if ExplicitRemember(text).Some? then
        decision == Upsert(BuildRecord(ExplicitRemember(text).value, Explicit))
      else if ExplicitForget(text).Some? && !NoneStates(live, NormalizeFact(ExplicitForget(text).value)) then
        decision.Tombstone? && States(live, decision.entryId, NormalizeFact(ExplicitForget(text).value))
      else decision == HeuristicDecision(text, live)
    case _ => decision == Ignore
  }

  method FindRecord(live: Records, fact: string) returns (entryId: Option<string>)
    ensures match entryId case Some(id) => States(live, id, fact) case None => NoneStates(live, fact)
  {
    var remaining := live.Keys;
    while remaining != {}
      invariant remaining <= live.Keys
      invariant forall id | id in live && id !in remaining :: !States(live, id, fact)
    {
      var id :| id in remaining;
      if NormalizeFact(live[id].body) == fact {
        return Some(id);
      }
      remaining := remaining - {id};
    }
    return None;
  }

  method DecisionForMessage(message: Message, live: Records) returns (decision: Decision)
    ensures IsDecision(message, live, decision)
  {
    if !message.content.Text? {
      return Ignore;
    }
    var text := Trim(message.content.text);
    if text == "" {
      return Ignore;
    }
    if message.role == User {
      var remember := ExplicitRemember(text);
      if remember.Some? {
        return Upsert(BuildRecord(remember.value, Explicit));
      }
      var forget := ExplicitForget(text);
      if forget.Some? {
        var found := FindRecord(live, NormalizeFact(forget.value));
        if found.Some? {
          return Tombstone(found.value);
        }
      }
      return HeuristicDecision(text, live);
    }
    return Ignore;
  }

  // ----- The pass over a window of messages -----

  /** Whether a write is allowed, given whether the message asks for it explicitly; no scope at all refuses everything. */
  datatype WriteScope = NoScope | Scope(authorize: bool -> bool) {
    predicate Allows(explicitIntent: bool) {
      Scope? && authorize(explicitIntent)
    }
  }

  datatype Tally = Tally(live: Records, created: nat, updated: nat, tombstoned: nat, ignored: nat) {
    function Handled(): nat {
      created + updated + tombstoned + ignored
    }
  }

  function Counted(tally: Tally, decision: Decision, allowed: bool): Tally {
    match decision
    case Upsert(record) =>
      if !allowed then tally.(ignored := tally.ignored + 1)
      else if record.entryId in tally.live then
        tally.(live := tally.live[record.entryId := record], updated := tally.updated + 1)
      else tally.(live := tally.live[record.entryId := record], created := tally.created + 1)
    case Tombstone(entryId) =>
      if !allowed then tally.(ignored := tally.ignored + 1)
      else if entryId in tally.live then
        tally.(live := tally.live - {entryId}, tombstoned := tally.tombstoned + 1)
      else tally.(ignored := tally.ignored + 1)
    case Ignore => tally.(ignored := tally.ignored + 1)
  }

  /** A pass over the messages, with the decisions that were made on the way. */
  ghost predicate IsPass(messages: seq<Message>, scope: WriteScope, start: Tally, decisions: seq<Decision>, end: Tally) {
    && |decisions| == |messages|
    && if messages == [] then end == start
       else
         var last := |messages| - 1;
         exists before: Tally ::
           && IsPass(messages[..last], scope, start, decisions[..last], before)
           && IsDecision(messages[last], before.live, decisions[last])
           && end == Counted(before, decisions[last], scope.Allows(IsExplicitIntent(messages[last])))
  }

  method ExtractWindow(messages: seq<Message>, scope: WriteScope, stored: Records)
    returns (tally: Tally, ghost decisions: seq<Decision>)
    ensures IsPass(messages, scope, Tally(stored, 0, 0, 0, 0), decisions, tally)
    ensures tally.Handled() == |messages|
  {
    hide IsPass, IsDecision, IsExplicitIntent;
    var live, created, updated, tombstoned, ignored := stored, 0, 0, 0, 0;
    decisions := [];
    PassOverNothing(scope, Tally(stored, 0, 0, 0, 0));
    for i := 0 to |messages|
      invariant IsPass(messages[..i], scope, Tally(stored, 0, 0, 0, 0), decisions,
                       Tally(live, created, updated, tombstoned, ignored))
      invariant created + updated + tombstoned + ignored == i
    {
      ghost var before := Tally(live, created, updated, tombstoned, ignored);
      var decision := DecisionForMessage(messages[i], live);
      var allowed := scope.Allows(IsExplicitIntent(messages[i]));
      match decision {
        case Upsert(record) =>
          if !allowed {
            ignored := ignored + 1;
          } else {
            if record.entryId in live {
              updated := updated + 1;
            } else {
              created := created + 1;
            }
            live := live[record.entryId := record];
          }
        case Tombstone(entryId) =>
          if !allowed {
            ignored := ignored + 1;
          } else if entryId in live {
            live := live - {entryId};
            tombstoned := tombstoned + 1;
          } else {
            ignored := ignored + 1;
          }
        case Ignore => ignored := ignored + 1;
      }
      PassOn(messages[..i], scope, Tally(stored, 0, 0, 0, 0), decisions, before, messages[i], decision);
      assert messages[..i + 1] == messages[..i] + [messages[i]];
      decisions := decisions + [decision];
    }
    assert messages[..|messages|] == messages;
    tally := Tally(live, created, updated, tombstoned, ignored);
  }

  lemma PassOverNothing(scope: WriteScope, start: Tally)
    ensures IsPass([], scope, start, [], start)
  {
  }

  lemma PassOn(messages: seq<Message>, scope: WriteScope, start: Tally, decisions: seq<Decision>, before: Tally,
               message: Message, decision: Decision)
    requires IsPass(messages, scope, start, decisions, before) && IsDecision(message, before.live, decision)
    ensures IsPass(messages + [message], scope, start, decisions + [decision],
                   Counted(before, decision, scope.Allows(IsExplicitIntent(message))))
  {
    assert (messages + [message])[..|messages|] == messages;
    assert (decisions + [decision])[..|decisions|] == decisions;
  }

  /** Main result: every message of the window is counted once, and the number of live records changes by created minus tombstoned. */
  lemma {:induction false} PassAccounts(messages: seq<Message>, scope: WriteScope, start: Tally, decisions: seq<Decision>, end: Tally)
    requires IsPass(messages, scope, start, decisions, end)
    ensures end.Handled() == start.Handled() + |messages|
    ensures |end.live| + (end.tombstoned - start.tombstoned) == |start.live| + (end.created - start.created)
    decreases |messages|
  {
    hide IsDecision, IsExplicitIntent;
    if messages != [] {
      var last := |messages| - 1;
      var before: Tally :|
        && IsPass(messages[..last], scope, start, decisions[..last], before)
        && IsDecision(messages[last], before.live, decisions[last])
        && end == Counted(before, decisions[last], scope.Allows(IsExplicitIntent(messages[last])));
      PassAccounts(messages[..last], scope, start, decisions[..last], before);
      OneIsCounted(before, decisions[last], scope.Allows(IsExplicitIntent(messages[last])));
    }
  }

  lemma OneIsCounted(tally: Tally, decision: Decision, allowed: bool)
    ensures
      var after := Counted(tally, decision, allowed);
      && after.Handled() == tally.Handled() + 1
      && |after.live| + after.tombstoned + tally.created == |tally.live| + tally.tombstoned + after.created
  {
    match decision
    case Upsert(record) => SizeAfterInsert(tally.live, record.entryId, record);
    case Tombstone(entryId) => SizeAfterRemove(tally.live, entryId);
    case Ignore =>
  }

  lemma SizeAfterInsert(live: Records, id: string, record: MemoryRecord)
    ensures |live[id := record]| == |live| + if id in live then 0 else 1
  {
    var after := live[id := record];
    assert after.Keys == live.Keys + {id};
    assert |after.Keys| == |after| && |live.Keys| == |live|;
  }

  lemma SizeAfterRemove(live: Records, id: string)
    ensures |live - {id}| + (if id in live then 1 else 0) == |live|
  {
    var after := live - {id};
    assert after.Keys == live.Keys - {id};
    assert id in live ==> live.Keys == after.Keys + {id};
    assert id !in live ==> live.Keys == after.Keys;
    assert |after.Keys| == |after| && |live.Keys| == |live|;
  }

  // ----- Records are kept under the fact they state -----

  ghost predicate Coherent(live: Records) {
    forall id | id in live :: live[id].entryId == id && NormalizeFact(live[id].body) == id
  }

  /** Trimming is idempotent, so the stored body states the same fact as the original text. */
  lemma TrimTwice(text: string)
    ensures Trim(Trim(text)) == Trim(text)
  {
    var r := Trim(text);
    if r != "" {
      assert r[0] == TrimStart(text)[0];
      assert TrimStart(r) == r;
      assert TrimEnd(r) == r;
    }
  }

  lemma BuiltRecordStatesItsFact(content: string, source: MemorySource)
    ensures BuildRecord(content, source).entryId == NormalizeFact(BuildRecord(content, source).body)
  {
    TrimTwice(content);
  }

  lemma DecisionKeepsCoherent(message: Message, tally: Tally, decision: Decision, allowed: bool)
    requires Coherent(tally.live) && IsDecision(message, tally.live, decision)
    ensures Coherent(Counted(tally, decision, allowed).live)
  {
    hide NormalizeFact, ExplicitRemember, ExplicitForget, HeuristicMemory, Trim;
    if decision.Upsert? {
      forall content: string, source: MemorySource
        ensures BuildRecord(content, source).entryId == NormalizeFact(BuildRecord(content, source).body)
      {
        BuiltRecordStatesItsFact(content, source);
      }
    }
  }

  /** In a coherent store the fact to forget is stated by the record of that name only, so the decision is determined. */
  lemma DecisionIsDetermined(message: Message, live: Records, decision: Decision, other: Decision)
    requires Coherent(live) && IsDecision(message, live, decision) && IsDecision(message, live, other)
    ensures decision == other
  {
    hide NormalizeFact, ExplicitRemember, ExplicitForget, HeuristicMemory, Trim;
  }

  lemma {:induction false} PassKeepsCoherent(messages: seq<Message>, scope: WriteScope, start: Tally, decisions: seq<Decision>, end: Tally)
    requires IsPass(messages, scope, start, decisions, end) && Coherent(start.live)
    ensures Coherent(end.live)
    decreases |messages|
  {
    hide IsDecision, IsExplicitIntent, Coherent;
    if messages != [] {
      var last := |messages| - 1;
      var before: Tally :|
        && IsPass(messages[..last], scope, start, decisions[..last], before)
        && IsDecision(messages[last], before.live, decisions[last])
        && end == Counted(before, decisions[last], scope.Allows(IsExplicitIntent(messages[last])));
      PassKeepsCoherent(messages[..last], scope, start, decisions[..last], before);
      DecisionKeepsCoherent(messages[last], before, decisions[last], scope.Allows(IsExplicitIntent(messages[last])));
    }
  }

  ghost predicate Asks(message: Message, remember: bool, content: string) {
    && message.role == User && message.content.Text? && Trim(message.content.text) != ""
    && var text := Trim(message.content.text);
       if remember then ExplicitRemember(text) == Some(content)
       else ExplicitRemember(text) == None && ExplicitForget(text) == Some(content)
  }

  lemma PassOverOne(message: Message, scope: WriteScope, start: Tally, decisions: seq<Decision>, end: Tally)
    requires IsPass([message], scope, start, decisions, end)
    ensures |decisions| == 1 && IsDecision(message, start.live, decisions[0])
    ensures end == Counted(start, decisions[0], scope.Allows(IsExplicitIntent(message)))
  {
    hide IsDecision, IsExplicitIntent;
    assert [message][..0] == [] && decisions[..0] == [];
  }

  lemma PassOverTwo(first: Message, second: Message, scope: WriteScope, start: Tally, decisions: seq<Decision>, end: Tally)
    returns (between: Tally)
    requires IsPass([first, second], scope, start, decisions, end)
    ensures |decisions| == 2 && IsDecision(first, start.live, decisions[0])
    ensures between == Counted(start, decisions[0], scope.Allows(IsExplicitIntent(first)))
    ensures IsDecision(second, between.live, decisions[1])
    ensures end == Counted(between, decisions[1], scope.Allows(IsExplicitIntent(second)))
  {
    hide IsDecision, IsExplicitIntent;
    assert [first, second][..1] == [first];
    between :|
      && IsPass([first], scope, start, decisions[..1], between)
      && IsDecision(second, between.live, decisions[1])
      && end == Counted(between, decisions[1], scope.Allows(IsExplicitIntent(second)));
    PassOverOne(first, scope, start, decisions[..1], between);
  }

  lemma RememberDecision(message: Message, live: Records, content: string, decision: Decision)
    requires Asks(message, true, content) && IsDecision(message, live, decision)
    ensures decision == Upsert(BuildRecord(content, Explicit)) && IsExplicitIntent(message)
  {
    hide NormalizeFact, ExplicitRemember, ExplicitForget, HeuristicMemory, Trim;
  }

  lemma ForgetDecision(message: Message, live: Records, content: string, entryId: string, decision: Decision)
    requires Asks(message, false, content) && IsDecision(message, live, decision)
    requires Coherent(live) && States(live, entryId, NormalizeFact(content))
    ensures decision == Tombstone(entryId) && IsExplicitIntent(message)
  {
    hide NormalizeFact, ExplicitRemember, ExplicitForget, HeuristicMemory, Trim;
  }

  /**
    Main result: when explicit writes are allowed, asking to remember a fact makes it
    live, whatever the wording, and asking to forget it afterwards, in any wording of the
    same fact, removes it and nothing else.
   */
  lemma RememberThenForget(live: Records, scope: WriteScope, first: Message, second: Message,
                           content: string, again: string, decisions: seq<Decision>, end: Tally)
    requires Coherent(live) && scope.Allows(true)
    requires Asks(first, true, content) && Asks(second, false, again)
    requires NormalizeFact(content) == NormalizeFact(again)
    requires IsPass([first, second], scope, Tally(live, 0, 0, 0, 0), decisions, end)
    ensures end.live == live - {NormalizeFact(content)}
    ensures end.tombstoned == 1 && end.created + end.updated == 1
  {
    hide NormalizeFact, IsDecision, IsExplicitIntent, Asks, IsPass, Trim;
    var start, record := Tally(live, 0, 0, 0, 0), BuildRecord(content, Explicit);
    var between := PassOverTwo(first, second, scope, start, decisions, end);
    RememberDecision(first, live, content, decisions[0]);
    BuiltRecordStatesItsFact(content, Explicit);
    DecisionKeepsCoherent(first, start, Upsert(record), true);
    ForgetDecision(second, between.live, again, record.entryId, decisions[1]);
  }

  // ----- When two wordings are the same fact -----

  predicate IsWord(word: string) {
    word != "" && forall i | 0 <= i < |word| :: 'a' <= word[i] <= 'z' || '0' <= word[i] <= '9'
  }

  lemma {:induction false} WordLenSpans(text: string)
    ensures forall i | 0 <= i < WordLen(text) :: IsAsciiAlphanumeric(text[i])
    ensures WordLen(text) < |text| ==> !IsAsciiAlphanumeric(text[WordLen(text)])
  {
    if text != "" && IsAsciiAlphanumeric(text[0]) {
      WordLenSpans(text[1..]);
    }
  }

  lemma {:induction false} WordsAreWords(text: string)
    ensures forall w | w in Words(text) :: IsWord(w)
    decreases |text|
  {
    if text != "" {
      if !IsAsciiAlphanumeric(text[0]) {
        WordsAreWords(text[1..]);
      } else {
        WordLenSpans(text);
        WordsAreWords(text[WordLen(text)..]);
      }
    }
  }

  /** A word followed by a separator, or by nothing, is read back as it is. */
  lemma {:induction false} WordLenOf(word: string, rest: string)
    requires forall i | 0 <= i < |word| :: IsAsciiAlphanumeric(word[i])
    requires rest == "" || !IsAsciiAlphanumeric(rest[0])
    ensures WordLen(word + rest) == |word|
  {
    if word == "" {
      assert word + rest == rest;
    } else {
      assert (word + rest)[1..] == word[1..] + rest;
      WordLenOf(word[1..], rest);
    }
  }

  lemma LowerWord(word: string)
    requires IsWord(word)
    ensures AsciiLowercase(word) == word
  {
  }

  lemma {:induction false} JoinedWordsReadBack(words: seq<string>)
    requires forall w | w in words :: IsWord(w)
    ensures Words(JoinWords(words)) == words
    decreases |words|
  {
    if words != [] {
      var word := words[0];
      assert word in words;
      LowerWord(word);
      var rest := if |words| == 1 then "" else "-" + JoinWords(words[1..]);
      WordLenOf(word, rest);
      assert JoinWords(words) == word + rest;
      assert (word + rest)[..|word|] == word && (word + rest)[|word|..] == rest;
      if |words| > 1 {
        JoinedWordsReadBack(words[1..]);
        assert rest[1..] == JoinWords(words[1..]);
      }
    }
  }

  /** Main result: two texts are the same fact exactly when they have the same words, in order. */
  lemma SameFactIffSameWords(a: string, b: string)
    ensures NormalizeFact(a) == NormalizeFact(b) <==> Words(Trim(a)) == Words(Trim(b))
  {
    WordsAreWords(Trim(a));
    WordsAreWords(Trim(b));
    JoinedWordsReadBack(Words(Trim(a)));
    JoinedWordsReadBack(Words(Trim(b)));
  }
}
