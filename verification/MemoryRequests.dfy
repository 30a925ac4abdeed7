/**
  What the words of a message ask of the memory store: the markers, in any letter case
  and behind any other words, and what is read behind them.
 */
module MemoryRequests {
  import opened Wrappers
  import opened Strings
  import opened Messages
  import opened MemoryStores

  // ----- Texts with a marker -----

  /** What stands behind the first place where the marker is spelled in any letter case, unless it is blank. */
  function Said(text: string, marker: string): (content: Option<string>)
    ensures content.Some? ==> content.value != ""
  {
    match Find(AsciiLowercase(text), marker)
    case None => None
    case Some(at) => if Trim(text[at + |marker|..]) != "" then Some(Trim(text[at + |marker|..])) else None
  }

  function FirstOf(a: Option<string>, b: Option<string>, c: Option<string>): Option<string> {
    if a.Some? then a else if b.Some? then b else c
  }

  lemma LowercaseJoins(a: string, b: string)
    ensures AsciiLowercase(a + b) == AsciiLowercase(a) + AsciiLowercase(b)
  {
  }

  /** The marker is read wherever it stands first, however it is spelled. */
  lemma SaidIs(words: string, spelled: string, rest: string, marker: string)
    requires AsciiLowercase(spelled) == marker
    requires NoMatchBefore(AsciiLowercase(words + (spelled + rest)), marker, |words|)
    ensures Said(words + (spelled + rest), marker) == if Trim(rest) != "" then Some(Trim(rest)) else None
  {
    hide Trim, AsciiLowercase;
    var text := words + (spelled + rest);
    LowercaseJoins(words, spelled + rest);
    LowercaseJoins(spelled, rest);
    var lower := AsciiLowercase(text);
    assert lower[|words|..|words| + |marker|] == marker;
    FindIs(lower, marker, |words|);
    assert text[|words| + |marker|..] == rest;
  }

  /** Nothing is said exactly when the marker is missing or nothing stands behind its first place. */
  lemma NothingSaidIff(text: string, marker: string)
    ensures Said(text, marker) == None <==>
              forall at: nat | MatchesAt(AsciiLowercase(text), marker, at) && NoMatchBefore(AsciiLowercase(text), marker, at) ::
                Trim(text[at + |marker|..]) == ""
  {
    hide Trim, AsciiLowercase;
    var lower := AsciiLowercase(text);
    FindSpec(lower, marker);
    forall at: nat | MatchesAt(lower, marker, at) && NoMatchBefore(lower, marker, at)
      ensures Find(lower, marker) == Some(at)
    {
      FindIs(lower, marker, at);
    }
  }

  // ----- Remembering and forgetting -----

  /** Main result: which markers ask to remember, and what is then remembered. */
  lemma RememberMarkers(text: string)
    ensures ExplicitRemember(text)
         == FirstOf(Said(text, "remember this:"), Said(text, "remember:"), Said(text, "please remember:"))
  {
    hide Trim, AsciiLowercase, Find;
    BehindThree(text, "remember this:", "remember:", "please remember:");
  }

  /** Main result: which markers ask to forget, and what is then forgotten. */
  lemma ForgetMarkers(text: string)
    ensures ExplicitForget(text)
         == FirstOf(Said(text, "forget this:"), Said(text, "forget:"), Said(text, "please forget:"))
  {
    hide Trim, AsciiLowercase, Find;
    BehindThree(text, "forget this:", "forget:", "please forget:");
  }

  lemma BehindThree(text: string, a: string, b: string, c: string)
    ensures BehindMarker(text, AsciiLowercase(text), [a, b, c]) == FirstOf(Said(text, a), Said(text, b), Said(text, c))
  {
    hide Trim, AsciiLowercase, Find;
    var lower := AsciiLowercase(text);
    assert [a, b, c][1..] == [b, c] && [b, c][1..] == [c] && [c][1..] == [];
    assert BehindMarker(text, lower, [c]) == Said(text, c);
    assert BehindMarker(text, lower, [b, c]) == if Said(text, b).Some? then Said(text, b) else Said(text, c);
  }

  /** A text that starts with a marker, in small letters, capitals or any mixture of them. */
  lemma StartsWithMarker(spelled: string, rest: string, marker: string)
    requires AsciiLowercase(spelled) == marker && Trim(rest) != ""
    ensures Said(spelled + rest, marker) == Some(Trim(rest))
  {
    SaidIs("", spelled, rest, marker);
    assert "" + (spelled + rest) == spelled + rest;
  }

  lemma SpelledInAnyCase()
    ensures AsciiLowercase("remember:") == "remember:" && AsciiLowercase("Remember:") == "remember:"
    ensures AsciiLowercase("REMEMBER THIS:") == "remember this:" && AsciiLowercase("Please Forget:") == "please forget:"
    ensures AsciiLowercase("forget:") == "forget:"
  {
  }

  /** A request in these words. */
  ghost predicate Remembers(text: string, fact: string) {
    && text == "remember:" + fact && Trim(text) == text && Trim(fact) != ""
    && Said(text, "remember this:") == None
  }

  ghost predicate Forgets(text: string, fact: string) {
    && text == "forget:" + fact && Trim(text) == text && Trim(fact) != ""
    && Said(text, "forget this:") == None
    && Said(text, "remember this:") == None && Said(text, "remember:") == None && Said(text, "please remember:") == None
  }

  lemma RemembersAsks(text: string, fact: string)
    requires Remembers(text, fact)
    ensures Asks(Message(User, Text(text)), true, Trim(fact))
  {
    hide Trim, Said, ExplicitRemember, AsciiLowercase;
    SpelledInAnyCase();
    StartsWithMarker("remember:", fact, "remember:");
    RememberMarkers(text);
    assert text[0] == 'r';
  }

  lemma ForgetsAsks(text: string, fact: string)
    requires Forgets(text, fact)
    ensures Asks(Message(User, Text(text)), false, Trim(fact))
  {
    hide Trim, Said, ExplicitRemember, ExplicitForget, AsciiLowercase;
    SpelledInAnyCase();
    StartsWithMarker("forget:", fact, "forget:");
    RememberMarkers(text);
    ForgetMarkers(text);
    assert text[0] == 'f';
  }

  /**
    Main result: a user's "remember:" makes a fact live, and a later "forget:" of the
    same fact in any wording removes it and nothing else.
   */
  lemma RememberThenForgetInWords(live: Records, scope: WriteScope, remember: string, forget: string, fact: string, again: string,
                                  decisions: seq<Decision>, end: Tally)
    requires Coherent(live) && scope.Allows(true)
    requires Remembers(remember, fact) && Forgets(forget, again) && SameFact(fact, again)
    requires IsTalk(remember, forget, live, scope, decisions, end)
    ensures end.live == live - {NormalizeFact(fact)}
    ensures end.tombstoned == 1 && end.created + end.updated == 1
  {
    var first, second := Message(User, Text(remember)), Message(User, Text(forget));
    hide Remembers, Forgets, Asks, Trim, NormalizeFact, Coherent, IsPass;
    RemembersAsks(remember, fact);
    ForgetsAsks(forget, again);
    TrimmedFact(fact);
    TrimmedFact(again);
    RememberThenForget(live, scope, first, second, Trim(fact), Trim(again), decisions, end);
  }

  ghost predicate SameFact(a: string, b: string) {
    NormalizeFact(a) == NormalizeFact(b)
  }

  /** A pass over two texts of the user. */
  ghost predicate IsTalk(first: string, second: string, live: Records, scope: WriteScope, decisions: seq<Decision>, end: Tally) {
    IsPass([Message(User, Text(first)), Message(User, Text(second))], scope, Tally(live, 0, 0, 0, 0), decisions, end)
  }

  lemma TrimmedFact(fact: string)
    ensures NormalizeFact(Trim(fact)) == NormalizeFact(fact)
  {
    TrimTwice(fact);
  }

  // ----- Preferences -----

  /** Main result: a stated preference is what stands behind the first colon. */
  lemma PreferenceIs(text: string)
    ensures
      if !Contains(AsciiLowercase(text), "my preference is") || ':' !in text then HeuristicMemory(text) == None
      else
        exists before: string, rest: string ::
          && text == before + ":" + rest && ':' !in before
          && HeuristicMemory(text) == if Trim(rest) != "" then Some(Trim(rest)) else None
  {
    hide Trim, AsciiLowercase, Contains, Find;
    FindColon(text);
    if Contains(AsciiLowercase(text), "my preference is") && ':' in text {
      var at := Find(text, ":").value;
      assert text == text[..at] + ":" + text[at + 1..];
      assert HeuristicMemory(text) == if Trim(text[at + 1..]) != "" then Some(Trim(text[at + 1..])) else None;
    }
  }

  lemma FindColon(text: string)
    ensures
      match Find(text, ":")
      case None => ':' !in text
      case Some(at) => text[at] == ':' && ':' !in text[..at]
  {
    FindSpec(text, ":");
    FindsCharacter(text, ':');
    if Find(text, ":").Some? {
      var at := Find(text, ":").value;
      CharacterMatches(text, ':', at);
      forall k | 0 <= k < at
        ensures text[k] != ':'
      {
        CharacterMatches(text, ':', k);
      }
    }
  }

  lemma CharacterMatches(text: string, c: char, k: nat)
    requires k < |text|
    ensures MatchesAt(text, [c], k) <==> text[k] == c
  {
    assert text[k..k + 1] == [text[k]];
  }

  /** A user's preference that is no explicit request becomes a heuristic record, unless the fact is live already. */
  lemma PreferenceDecision(text: string, content: string, live: Records, decision: Decision)
    requires Trim(text) == text && text != ""
    requires ExplicitRemember(text) == None && ExplicitForget(text) == None
    requires HeuristicMemory(text) == Some(content)
    requires IsDecision(Message(User, Text(text)), live, decision)
    ensures decision == if NormalizeFact(content) in live then Ignore
                        else Upsert(MemoryRecord(NormalizeFact(content), Trim(content), Heuristic))
  {
    hide Trim, NormalizeFact, ExplicitRemember, ExplicitForget, HeuristicMemory;
  }

  // ----- Messages that ask for nothing -----

  /** Only texts of the user are listened to, and of those only requests and preferences. */
  lemma OthersAreIgnored(message: Message, live: Records, decision: Decision)
    requires IsDecision(message, live, decision)
    requires
      || message.role != User || !message.content.Text?
      || (var text := Trim(message.content.text);
          ExplicitRemember(text) == None && ExplicitForget(text) == None && HeuristicMemory(text) == None)
    ensures decision == Ignore
  {
    hide Trim, NormalizeFact, ExplicitRemember, ExplicitForget, HeuristicMemory;
  }

  /** A request counts as explicit when it asks to remember or to forget. */
  lemma ExplicitIff(text: string)
    requires Trim(text) == text
    ensures IsExplicitIntent(Message(User, Text(text))) <==>
              || Said(text, "remember this:").Some? || Said(text, "remember:").Some? || Said(text, "please remember:").Some?
              || Said(text, "forget this:").Some? || Said(text, "forget:").Some? || Said(text, "please forget:").Some?
  {
    hide Trim, Said, ExplicitRemember, ExplicitForget;
    RememberMarkers(text);
    ForgetMarkers(text);
  }

  /** Without a scope to write to, a pass changes nothing and ignores every message. */
  lemma {:induction false} NoScopeNoChange(messages: seq<Message>, start: Tally, decisions: seq<Decision>, end: Tally)
    requires IsPass(messages, NoScope, start, decisions, end)
    ensures end == start.(ignored := start.ignored + |messages|)
    decreases |messages|
  {
    hide IsDecision, IsExplicitIntent;
    if messages != [] {
      var last := |messages| - 1;
      var before: Tally :|
        && IsPass(messages[..last], NoScope, start, decisions[..last], before)
        && IsDecision(messages[last], before.live, decisions[last])
        && end == Counted(before, decisions[last], NoScope.Allows(IsExplicitIntent(messages[last])));
      NoScopeNoChange(messages[..last], start, decisions[..last], before);
    }
  }

  // ----- Words -----

  /** A letter or a digit. */
  predicate InWord(c: char) {
    'a' <= c <= 'z' || 'A' <= c <= 'Z' || '0' <= c <= '9'
  }

  /** Main result: a word is a run of letters and digits, whatever separates it from the next. */
  lemma WordsRead(word: string, separator: char, rest: string)
    requires word != "" && (forall i | 0 <= i < |word| :: InWord(word[i])) && !InWord(separator)
    ensures Words(word + ([separator] + rest)) == [AsciiLowercase(word)] + Words(rest)
    ensures Words([separator] + rest) == Words(rest)
    ensures Words(word) == [AsciiLowercase(word)]
  {
    hide AsciiLowercase;
    WordLenOf(word, [separator] + rest);
    WordLenOf(word, "");
    var text := word + ([separator] + rest);
    assert text[..|word|] == word && text[|word|..] == [separator] + rest;
    assert ([separator] + rest)[1..] == rest;
    assert word + "" == word && word[..|word|] == word && word[|word|..] == "";
    assert Words("") == [];
  }

  /** The normal form joins the words of a fact by dashes. */
  lemma NormalFormOf(content: string, first: string, second: string)
    requires Words(Trim(content)) == [first, second]
    ensures NormalizeFact(content) == first + "-" + second
  {
    hide Words, Trim;
    assert [first, second][1..] == [second];
    assert JoinWords([second]) == second;
  }
}
