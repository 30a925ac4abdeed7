/**
  The block reader inverts the block format: a tool call written as a block is
  read back with its own name and arguments, and a stream that mixes text and
  written calls reports exactly that text and those calls.
 */
module QwenRoundTrip {
  import opened Wrappers
  import opened Strings
  import opened Decimals
  import opened QwenBlocks
  import opened QwenToolCalls
  import opened QwenChunking

  datatype Parameter = Parameter(name: string, value: string)

  function RenderParameter(p: Parameter): string {
    "<parameter=" + p.name + ">" + ("\n" + (p.value + ("\n" + ("</parameter>" + "\n"))))
  }

  function RenderParameters(parameters: seq<Parameter>): string {
    if parameters == [] then "" else RenderParameter(parameters[0]) + RenderParameters(parameters[1..])
  }

  function RenderCall(name: string, parameters: seq<Parameter>): string {
    "<tool_call>"
    + ("\n" + ("<function=" + name + ">"
               + ("\n" + RenderParameters(parameters) + ("</function>" + ("\n" + "</tool_call>")))))
  }

  predicate CleanName(name: string) {
    '<' !in name && '>' !in name
  }

  predicate CleanParameter(p: Parameter) {
    && CleanName(p.name)
    && Find(p.value, "</parameter>") == None
    && Find(p.value, "</function>") == None
    && Find(p.value, "</tool_call>") == None
  }

  /** The arguments a list of parameters stands for, under trimmed names; a later one replaces an earlier one of the same name. */
  function Arguments(reader: JsonReader, parameters: seq<Parameter>, sofar: map<string, Json>): map<string, Json> {
    if parameters == [] then sofar
    else Arguments(reader, parameters[1..], sofar[Trim(parameters[0].name) := Meant(reader, parameters[0].value)])
  }

  /** A value that is JSON stands for that, any other for its own trimmed text. */
  function Meant(reader: JsonReader, value: string): Json {
    match reader(Trim(value))
    case Some(json) => json
    case None => JsonString(Trim(value))
  }

  // ----- Texts that do not hold a tag -----

  ghost predicate Free(text: string, tag: string) {
    NoMatchBefore(text, tag, |text| + 1)
  }

  lemma FreeIsNone(text: string, tag: string)
    ensures Free(text, tag) <==> Find(text, tag) == None
  {
    FindSpec(text, tag);
  }

  /** A character that is not part of the tag keeps the two sides apart. */
  lemma FreeJoin(a: string, c: char, b: string, tag: string)
    requires Free(a, tag) && Free(b, tag) && c !in tag && tag != ""
    ensures Free(a + ([c] + b), tag)
  {
    var text := a + ([c] + b);
    forall k: nat | k <= |text|
      ensures !MatchesAt(text, tag, k)
    {
      if k + |tag| <= |text| {
        if k + |tag| <= |a| {
          MatchesAtExtend(a, [c] + b, tag, k);
        } else if k <= |a| {
          assert text[k..k + |tag|][|a| - k] == c;
        } else {
          assert text[k..k + |tag|] == b[k - |a| - 1..k - |a| - 1 + |tag|];
          assert !MatchesAt(b, tag, k - |a| - 1);
        }
      }
    }
  }

  /** A tag behind such a character is found where it stands. */
  lemma FindBehind(a: string, c: char, tag: string, rest: string)
    requires Free(a, tag) && c !in tag && tag != ""
    ensures Find(a + ([c] + (tag + rest)), tag) == Some(|a| + 1)
  {
    var text, at := a + ([c] + (tag + rest)), |a| + 1;
    assert text[at..at + |tag|] == tag;
    forall k: nat | k < at
      ensures !MatchesAt(text, tag, k)
    {
      if k + |tag| <= |a| {
        MatchesAtExtend(a, [c] + (tag + rest), tag, k);
      } else if k + |tag| <= |text| {
        assert text[k..k + |tag|][|a| - k] == c;
      }
    }
    FindIs(text, tag, at);
  }

  /** Text whose only '<' is its first character holds no tag except as a prefix. */
  lemma FreeSingle(text: string, tag: string)
    requires tag != "" && tag[0] == '<'
    requires forall i | 0 < i < |text| :: text[i] != '<'
    requires !MatchesAt(text, tag, 0)
    ensures Free(text, tag)
  {
    forall k: nat | k <= |text|
      ensures !MatchesAt(text, tag, k)
    {
      if 0 < k && k + |tag| <= |text| {
        assert text[k..k + |tag|][0] == text[k];
      }
    }
  }

  lemma FreePrefix(a: string, b: string, tag: string)
    requires Free(a + b, tag)
    ensures Free(a, tag)
  {
    forall k: nat | k <= |a|
      ensures !MatchesAt(a, tag, k)
    {
      if k + |tag| <= |a| {
        MatchesAtExtend(a, b, tag, k);
        assert !MatchesAt(a + b, tag, k);
      }
    }
  }

  /** The closing tags that end a function or a block. */
  predicate IsOuterClose(tag: string) {
    tag == "</function>" || tag == CLOSE
  }

  lemma HeadIsFree(start: string, name: string, tag: string)
    requires CleanName(name) && start in {"<parameter=", "<function="}
    requires IsOuterClose(tag)
    ensures Free(start + name + ">", tag)
  {
    hide MatchesAt, Free, Trim;
    var text := start + name + ">";
    assert text[1] == start[1];
    forall i | 0 < i < |text|
      ensures text[i] != '<'
    {
      assert i < |start| ==> text[i] == start[i];
      assert |start| <= i < |start| + |name| ==> text[i] == name[i - |start|];
    }
    NotAtStart(text, tag);
    FreeSingle(text, tag);
  }

  lemma NotAtStart(text: string, tag: string)
    requires |text| > 1 && |tag| > 1 && text[1] != tag[1]
    ensures !MatchesAt(text, tag, 0)
  {
    if |tag| <= |text| {
      assert text[0..|tag|][1] == text[1];
    }
  }

  lemma FreeLines(head: string, value: string, close: string, rest: string, tag: string)
    requires Free(head, tag) && Free(value, tag) && Free(close, tag) && Free(rest, tag)
    requires '\n' !in tag && tag != ""
    ensures Free(head + ("\n" + (value + ("\n" + (close + ("\n" + rest))))), tag)
  {
    hide Free;
    FreeJoin(close, '\n', rest, tag);
    FreeJoin(value, '\n', close + ("\n" + rest), tag);
    FreeJoin(head, '\n', value + ("\n" + (close + ("\n" + rest))), tag);
  }

  lemma RenderParameterThen(p: Parameter, rest: string)
    ensures RenderParameter(p) + rest
         == "<parameter=" + p.name + ">" + ("\n" + (p.value + ("\n" + ("</parameter>" + ("\n" + rest)))))
  {
    var head, close := "<parameter=" + p.name + ">", "</parameter>";
    assert (close + "\n") + rest == close + ("\n" + rest);
    assert ("\n" + (close + "\n")) + rest == "\n" + (close + ("\n" + rest));
    assert (p.value + ("\n" + (close + "\n"))) + rest == p.value + ("\n" + (close + ("\n" + rest)));
    Reassociate(head, p.value + ("\n" + (close + "\n")), rest);
  }

  lemma Reassociate(head: string, body: string, rest: string)
    ensures (head + ("\n" + body)) + rest == head + ("\n" + (body + rest))
  {
  }

  lemma ParameterCloseIsFree(tag: string)
    requires IsOuterClose(tag)
    ensures Free("</parameter>", tag)
  {
    var text := "</parameter>";
    assert |tag| <= |text| && text[0..|tag|][2] == text[2] != tag[2];
    FreeSingle(text, tag);
  }

  lemma ParameterIsFree(p: Parameter, rest: string, tag: string)
    requires CleanParameter(p) && IsOuterClose(tag) && Free(rest, tag)
    ensures Free(RenderParameter(p) + rest, tag)
  {
    hide Free, RenderParameter, Find, Trim;
    HeadIsFree("<parameter=", p.name, tag);
    FreeIsNone(p.value, tag);
    ParameterCloseIsFree(tag);
    FreeLines("<parameter=" + p.name + ">", p.value, "</parameter>", rest, tag);
    RenderParameterThen(p, rest);
  }

  lemma {:induction false} ParametersAreFree(parameters: seq<Parameter>, tag: string)
    requires forall p | p in parameters :: CleanParameter(p)
    requires IsOuterClose(tag)
    ensures Free(RenderParameters(parameters), tag)
  {
    hide Free, RenderParameter, CleanParameter;
    if parameters == [] {
      FreeIsNone("", tag);
    } else {
      assert parameters[0] in parameters;
      ParametersAreFree(parameters[1..], tag);
      ParameterIsFree(parameters[0], RenderParameters(parameters[1..]), tag);
    }
  }

  // ----- Reading the parameters -----

  lemma TrimStartAt(space: char, text: string)
    requires IsWhitespace(space) && (text == "" || !IsWhitespace(text[0]))
    ensures TrimStart([space] + text) == text
  {
    assert ([space] + text)[1..] == text;
  }

  /** Line breaks around a value are trimmed away. */
  lemma {:induction false} TrimStartSkips(space: char, text: string)
    requires IsWhitespace(space)
    ensures TrimStart([space] + text) == TrimStart(text)
  {
    assert ([space] + text)[1..] == text;
  }

  lemma TrimEndSkips(text: string, space: char)
    requires IsWhitespace(space)
    ensures TrimEnd(text + [space]) == TrimEnd(text)
  {
    assert (text + [space])[..|text|] == text;
  }

  /** Trimming does not depend on which end is trimmed first. */
  lemma {:induction false} TrimStartThenEnd(text: string, space: char)
    requires IsWhitespace(space)
    ensures Trim(text + [space]) == Trim(text)
  {
    if text == "" {
      TrimStartSkips(space, "");
      assert "" + [space] == [space] + "";
    } else if IsWhitespace(text[0]) {
      assert (text + [space])[1..] == text[1..] + [space];
      TrimStartThenEnd(text[1..], space);
    } else {
      TrimEndSkips(text, space);
    }
  }

  lemma TrimLines(text: string)
    ensures Trim("\n" + (text + "\n")) == Trim(text)
  {
    TrimStartSkips('\n', text + "\n");
    TrimStartThenEnd(text, '\n');
  }

  lemma StripHead(head: string, rest: string)
    ensures StripPrefix(head + rest, head) == Some(rest)
  {
    assert (head + rest)[0..|head|] == head && (head + rest)[|head|..] == rest;
  }

  lemma NameEnds(name: string, rest: string)
    requires '>' !in name
    ensures Find(name + (">" + rest), ">") == Some(|name|)
  {
    var text := name + (">" + rest);
    assert text[|name|..|name| + 1] == ">";
    forall k: nat | k < |name|
      ensures !MatchesAt(text, ">", k)
    {
      assert text[k..k + 1][0] == name[k];
    }
    FindIs(text, ">", |name|);
  }

  /** One written parameter is read off the front. */
  lemma MeantIsRead(reader: JsonReader, value: string)
    ensures ParameterValue(reader, value) == Meant(reader, value)
  {
    hide Trim;
  }

  /** The line breaks around a value do not matter. */
  lemma SameValue(reader: JsonReader, value: string)
    ensures ParameterValue(reader, "\n" + (value + "\n")) == ParameterValue(reader, value)
  {
    hide Trim;
    TrimLines(value);
  }

  lemma ParameterStep(reader: JsonReader, remaining: string, body: string, name: string, lines: string, value: string,
                      after: string, sofar: map<string, Json>)
    requires TrimStart(remaining) != "" && StripPrefix(TrimStart(remaining), "<parameter=") == Some(body)
    requires Find(body, ">") == Some(|name|) && body[..|name|] == name && body[|name| + 1..] == lines
    requires Find(lines, "</parameter>") == Some(|value|)
    requires lines[..|value|] == value && lines[|value| + |"</parameter>"|..] == after
    ensures ParseParameters(reader, remaining, sofar)
         == ParseParameters(reader, after, sofar[Trim(name) := ParameterValue(reader, value)])
  {
    hide Find, Trim, TrimStart, ParameterValue;
  }

  lemma ReadOneParameter(reader: JsonReader, p: Parameter, rest: string, sofar: map<string, Json>)
    requires CleanParameter(p)
    ensures ParseParameters(reader, "\n" + (RenderParameter(p) + rest), sofar)
         == ParseParameters(reader, "\n" + rest, sofar[Trim(p.name) := Meant(reader, p.value)])
  {
    hide Find, Trim, TrimStart, StripPrefix, Meant, ParameterValue, ParseParameters, RenderParameter;
    MeantIsRead(reader, p.value);
    SameValue(reader, p.value);
    var lines := "\n" + (p.value + ("\n" + ("</parameter>" + ("\n" + rest))));
    var written, body := RenderParameter(p) + rest, p.name + (">" + lines);
    RenderParameterThen(p, rest);
    assert written == "<parameter=" + body;
    TrimStartAt('\n', written);
    StripHead("<parameter=", body);
    NameEnds(p.name, lines);
    assert body[..|p.name|] == p.name && body[|p.name| + 1..] == lines;
    ValueEnds(p.value, rest);
    ParameterStep(reader, "\n" + written, body, p.name, lines, "\n" + (p.value + "\n"), "\n" + rest, sofar);
  }

  lemma ValueEnds(value: string, rest: string)
    requires Find(value, "</parameter>") == None
    ensures
      var lines := "\n" + (value + ("\n" + ("</parameter>" + ("\n" + rest))));
      && Find(lines, "</parameter>") == Some(|value| + 2)
      && lines[..|value| + 2] == "\n" + (value + "\n")
      && lines[|value| + 2 + |"</parameter>"|..] == "\n" + rest
  {
    var lines := "\n" + (value + ("\n" + ("</parameter>" + ("\n" + rest))));
    FreeIsNone(value, "</parameter>");
    FreeIsNone("", "</parameter>");
    FreeJoin("", '\n', value, "</parameter>");
    assert "" + ("\n" + value) == "\n" + value;
    FindBehind("\n" + value, '\n', "</parameter>", "\n" + rest);
    assert lines == "\n" + value + ("\n" + ("</parameter>" + ("\n" + rest)));
  }

  lemma {:induction false} ReadParameters(reader: JsonReader, parameters: seq<Parameter>, sofar: map<string, Json>)
    requires forall p | p in parameters :: CleanParameter(p)
    ensures ParseParameters(reader, "\n" + RenderParameters(parameters), sofar)
         == Some(Arguments(reader, parameters, sofar))
    decreases |parameters|
  {
    if parameters == [] {
      TrimStartAt('\n', "");
    } else {
      var p := parameters[0];
      assert p in parameters;
      ReadOneParameter(reader, p, RenderParameters(parameters[1..]), sofar);
      ReadParameters(reader, parameters[1..], sofar[Trim(p.name) := Meant(reader, p.value)]);
    }
  }

  // ----- Reading a block -----

  /** The block as it stands between the tags and after trimming. */
  function Body(name: string, parameters: seq<Parameter>): string {
    "<function=" + name + ">" + ("\n" + RenderParameters(parameters) + "</function>")
  }

  lemma RenderCallIs(name: string, parameters: seq<Parameter>)
    ensures RenderCall(name, parameters) == OPEN + (("\n" + (Body(name, parameters) + "\n")) + CLOSE)
  {
    var head, params := "<function=" + name + ">", "\n" + RenderParameters(parameters);
    assert head + (params + ("</function>" + ("\n" + CLOSE))) == (head + (params + "</function>")) + ("\n" + CLOSE);
    assert "\n" + (Body(name, parameters) + ("\n" + CLOSE)) == ("\n" + (Body(name, parameters) + "\n")) + CLOSE;
  }

  lemma BodyIsTrimmed(name: string, parameters: seq<Parameter>)
    ensures Trim("\n" + (Body(name, parameters) + "\n")) == Body(name, parameters)
  {
    hide Body, Trim, IsWhitespace;
    TrimLines(Body(name, parameters));
    BodyHasEnds(name, parameters);
    NothingToTrim(Body(name, parameters));
  }

  lemma BodyHasEnds(name: string, parameters: seq<Parameter>)
    ensures var body := Body(name, parameters); body != "" && body[0] == '<' && body[|body| - 1] == '>'
  {
    hide RenderParameters;
  }

  lemma NothingToTrim(text: string)
    requires text != "" && text[0] == '<' && text[|text| - 1] == '>'
    ensures Trim(text) == text
  {
  }

  lemma StripBoth(inside: string)
    ensures StripPrefix(OPEN + (inside + CLOSE), OPEN) == Some(inside + CLOSE)
    ensures StripSuffix(inside + CLOSE, CLOSE) == Some(inside)
  {
    StripHead(OPEN, inside + CLOSE);
    assert (inside + CLOSE)[|inside|..] == CLOSE && (inside + CLOSE)[..|inside|] == inside;
  }

  lemma FunctionEnds(parameters: seq<Parameter>)
    requires forall p | p in parameters :: CleanParameter(p)
    ensures Find("\n" + RenderParameters(parameters) + "</function>", "</function>")
         == Some(1 + |RenderParameters(parameters)|)
  {
    hide Find, Free, RenderParameters, CleanParameter;
    var written := RenderParameters(parameters);
    NothingWritten();
    ParametersAreFree(parameters, "</function>");
    if parameters == [] {
      FreeIsNone("", "</function>");
      FindBehind("", '\n', "</function>", "");
      assert "" + ("\n" + ("</function>" + "")) == "\n" + written + "</function>";
    } else {
      WrittenEndsWithLine(parameters);
      var front := written[..|written| - 1];
      FreeIsNone("", "</function>");
      FreePrefix(front, "\n", "</function>");
      FreeJoin("", '\n', front, "</function>");
      FindBehind("" + ("\n" + front), '\n', "</function>", "");
      assert "" + ("\n" + front) + ("\n" + ("</function>" + "")) == "\n" + written + "</function>";
    }
  }

  lemma {:induction false} WrittenEndsWithLine(parameters: seq<Parameter>)
    requires parameters != []
    ensures var written := RenderParameters(parameters);
            |written| > 0 && written == written[..|written| - 1] + "\n"
  {
    var p, rest := parameters[0], RenderParameters(parameters[1..]);
    RenderParameterThen(p, rest);
    if |parameters| == 1 {
      assert rest == "";
    } else {
      WrittenEndsWithLine(parameters[1..]);
    }
  }

  lemma HeaderOfWritten(name: string, parameters: seq<Parameter>)
    requires CleanName(name)
    requires forall p | p in parameters :: CleanParameter(p)
    ensures BlockHeader(RenderCall(name, parameters)) == Some((Trim(name), "\n" + RenderParameters(parameters)))
  {
    hide Find, Trim, StripPrefix, StripSuffix, RenderParameters, CleanParameter;
    var body, params := Body(name, parameters), "\n" + RenderParameters(parameters);
    var rest := params + "</function>";
    RenderCallIs(name, parameters);
    StripBoth("\n" + (body + "\n"));
    BodyIsTrimmed(name, parameters);
    assert body == "<function=" + (name + (">" + rest));
    StripHead("<function=", name + (">" + rest));
    assert '>' !in name;
    NameEnds(name, rest);
    var functionBody := name + (">" + rest);
    assert functionBody[..|name|] == name && functionBody[|name| + 1..] == rest;
    FunctionEnds(parameters);
    assert rest[..|params|] == params;
  }

  /** Main result for one block: reading what was written gives the call back. */
  lemma ReadInvertsWrite(reader: JsonReader, name: string, parameters: seq<Parameter>, toolUseId: string)
    requires CleanName(name)
    requires forall p | p in parameters :: CleanParameter(p)
    ensures ParseBlock(reader, RenderCall(name, parameters), toolUseId)
         == Some(ToolCall(toolUseId, Trim(name), JsonObject(Arguments(reader, parameters, map[]))))
  {
    hide BlockHeader, RenderCall, RenderParameters, Arguments, ParseParameters, CleanName, CleanParameter, Trim;
    HeaderOfWritten(name, parameters);
    ReadParameters(reader, parameters, map[]);
  }

  // ----- Reading a stream -----

  /** Visible words followed by a written call. */
  datatype Turn = Turn(words: string, name: string, parameters: seq<Parameter>)

  predicate CleanTurn(turn: Turn) {
    Find(turn.words, OPEN) == None && CleanName(turn.name) && forall p | p in turn.parameters :: CleanParameter(p)
  }

  function Written(turns: seq<Turn>, last: string): string {
    if turns == [] then last
    else turns[0].words + (RenderCall(turns[0].name, turns[0].parameters) + Written(turns[1..], last))
  }

  /** What a reader of the stream should see: the words and the calls, numbered in order. */
  function Meaning(reader: JsonReader, turns: seq<Turn>, last: string, used: nat): seq<Atom> {
    if turns == [] then Characters(last)
    else
      var call := ToolCall("qwen-tool-call-" + Decimal(used + 1), Trim(turns[0].name), JsonObject(Arguments(reader, turns[0].parameters, map[])));
      Characters(turns[0].words) + [Called(call)] + Meaning(reader, turns[1..], last, used + 1)
  }

  lemma OpenBehind(words: string, rest: string)
    requires Find(words, OPEN) == None
    ensures Find(words + (OPEN + rest), OPEN) == Some(|words|)
  {
    var text := words + (OPEN + rest);
    FreeIsNone(words, OPEN);
    assert text[|words|..|words| + |OPEN|] == OPEN;
    forall k: nat | k < |words|
      ensures !MatchesAt(text, OPEN, k)
    {
      if k + |OPEN| <= |words| {
        MatchesAtExtend(words, OPEN + rest, OPEN, k);
      } else {
        assert text[|words|] == OPEN[0];
        assert text[k..k + |OPEN|][|words| - k] == text[|words|];
        OpenTagShape(|words| - k);
      }
    }
    FindIs(text, OPEN, |words|);
  }

  /** Everything in a written call before its closing tag. */
  function Front(name: string, parameters: seq<Parameter>): string {
    OPEN + ("\n" + ("<function=" + name + ">" + ("\n" + RenderParameters(parameters) + "</function>")))
  }

  lemma FrontIsFree(name: string, parameters: seq<Parameter>)
    requires CleanName(name)
    requires forall p | p in parameters :: CleanParameter(p)
    ensures Free(Front(name, parameters), CLOSE)
  {
    hide Free, RenderParameters, CleanName, CleanParameter;
    var head, written, end := "<function=" + name + ">", RenderParameters(parameters), "</function>";
    HeadIsFree("<function=", name, CLOSE);
    ParametersAreFree(parameters, CLOSE);
    EndIsFree();
    if parameters == [] {
      NothingWritten();
      FreeJoin(head, '\n', end, CLOSE);
      assert head + ("\n" + written + end) == head + ("\n" + end);
    } else {
      WrittenEndsWithLine(parameters);
      var front := written[..|written| - 1];
      FreePrefix(front, "\n", CLOSE);
      FreeJoin(front, '\n', end, CLOSE);
      FreeJoin(head, '\n', front + ("\n" + end), CLOSE);
      assert head + ("\n" + (front + ("\n" + end))) == head + ("\n" + written + end);
    }
    FreeJoin(OPEN, '\n', head + ("\n" + written + end), CLOSE);
  }

  lemma NothingWritten()
    ensures RenderParameters([]) == ""
  {
  }

  lemma EndIsFree()
    ensures Free("</function>", CLOSE) && Free(OPEN, CLOSE)
  {
    assert OPEN[1] != CLOSE[1];
    FreeSingle("</function>", CLOSE);
    FreeSingle(OPEN, CLOSE);
  }

  lemma CallIsFrontThenClose(name: string, parameters: seq<Parameter>, rest: string)
    ensures RenderCall(name, parameters) + rest == Front(name, parameters) + ("\n" + (CLOSE + rest))
    ensures RenderCall(name, parameters) == Front(name, parameters) + ("\n" + CLOSE)
  {
    hide RenderParameters;
    var head, written := "<function=" + name + ">", "\n" + RenderParameters(parameters);
    assert head + (written + ("</function>" + ("\n" + CLOSE))) == (head + (written + "</function>")) + ("\n" + CLOSE);
    assert ("\n" + CLOSE) + rest == "\n" + (CLOSE + rest);
  }

  lemma CloseOfWritten(name: string, parameters: seq<Parameter>, rest: string)
    requires CleanName(name)
    requires forall p | p in parameters :: CleanParameter(p)
    ensures
      var call := RenderCall(name, parameters);
      Find(call + rest, CLOSE) == Some(|call| - |CLOSE|)
  {
    hide Front, RenderCall, CleanName, CleanParameter;
    FrontIsFree(name, parameters);
    CallIsFrontThenClose(name, parameters, rest);
    FindBehind(Front(name, parameters), '\n', CLOSE, rest);
  }

  /** One turn is parsed off the front. */
  lemma ParseTurn(reader: JsonReader, turn: Turn, rest: string, used: nat)
    requires CleanTurn(turn)
    ensures
      var call := ToolCall(ToolUseId(used + 1), Trim(turn.name), JsonObject(Arguments(reader, turn.parameters, map[])));
      Parse(BlockEvents(reader), turn.words + (RenderCall(turn.name, turn.parameters) + rest), used)
      == Characters(turn.words) + [Called(call)] + Parse(BlockEvents(reader), rest, used + 1)
  {
    hide Find, Parse, ParseBlock, CleanName, CleanParameter, Characters, RenderCall, ToolUseId;
    var call := RenderCall(turn.name, turn.parameters);
    CallStartsOpen(turn.name, turn.parameters);
    var afterOpen := call[|OPEN|..];
    assert call + rest == OPEN + (afterOpen + rest);
    OpenBehind(turn.words, afterOpen + rest);
    CloseOfWritten(turn.name, turn.parameters, rest);
    ReadInvertsWrite(reader, turn.name, turn.parameters, ToolUseId(used + 1));
    ParseStep(BlockEvents(reader), turn.words, call, rest, used);
  }

  lemma CallStartsOpen(name: string, parameters: seq<Parameter>)
    ensures OPEN <= RenderCall(name, parameters) && |CLOSE| <= |RenderCall(name, parameters)|
  {
    RenderCallIs(name, parameters);
    hide RenderCall, Body;
  }

  /** Parsing some words, a block and the rest, where the tags have been found. */
  lemma ParseStep(read: BlockReader, words: string, block: string, rest: string, used: nat)
    requires |CLOSE| <= |block|
    requires Find(words + (block + rest), OPEN) == Some(|words|) && Find(block + rest, CLOSE) == Some(|block| - |CLOSE|)
    ensures Parse(read, words + (block + rest), used)
         == Characters(words) + EventAtoms(read(block, used + 1)) + Parse(read, rest, used + 1)
  {
    hide Find, Characters, EventAtoms;
    var text, start, end := words + (block + rest), |words|, |words| + |block|;
    assert text[..start] == words && text[start..] == block + rest;
    assert text[start..end] == block && text[end..] == rest;
  }

  lemma {:induction false} ParseInvertsWritten(reader: JsonReader, turns: seq<Turn>, last: string, used: nat)
    requires forall turn | turn in turns :: CleanTurn(turn)
    requires Find(last, OPEN) == None
    ensures Parse(BlockEvents(reader), Written(turns, last), used) == Meaning(reader, turns, last, used)
    decreases |turns|
  {
    hide Parse, CleanTurn, RenderCall;
    if turns == [] {
      ParseWords(BlockEvents(reader), last, used);
    } else {
      assert turns[0] in turns;
      ParseTurn(reader, turns[0], Written(turns[1..], last), used);
      ParseInvertsWritten(reader, turns[1..], last, used + 1);
    }
  }

  lemma ParseWords(read: BlockReader, words: string, used: nat)
    requires Find(words, OPEN) == None
    ensures Parse(read, words, used) == Characters(words)
  {
  }

  /** Main result: written calls survive every chunking, with their words, names, arguments and order. */
  lemma StreamInvertsWritten(reader: JsonReader, turns: seq<Turn>, last: string, chunks: seq<string>)
    requires forall turn | turn in turns :: CleanTurn(turn)
    requires Find(last, OPEN) == None
    requires Concat(chunks) == Written(turns, last)
    ensures Atoms(Stream(BlockEvents(reader), chunks)) == Meaning(reader, turns, last, 0)
  {
    StreamingRefinesParse(BlockEvents(reader), chunks);
    ParseInvertsWritten(reader, turns, last, 0);
  }

  // ----- Blocks that cannot be read -----

  /** What stands between the tags is no call unless it starts, after trimming, with a function. */
  lemma NoFunctionIsNoCall(reader: JsonReader, inside: string, toolUseId: string)
    requires StripPrefix(Trim(inside), "<function=") == None
    ensures ParseBlock(reader, "<tool_call>" + (inside + "</tool_call>"), toolUseId) == None
  {
    hide Trim, Find, StripPrefix, StripSuffix;
    StripBoth(inside);
  }

  /** Main result: a block that cannot be read is shown as it stands, and uses up a number. */
  lemma UnreadableIsShown(reader: JsonReader, words: string, block: string, rest: string, used: nat)
    requires |CLOSE| <= |block|
    requires Find(words + (block + rest), OPEN) == Some(|words|) && Find(block + rest, CLOSE) == Some(|block| - |CLOSE|)
    requires ParseBlock(reader, block, "qwen-tool-call-" + Decimal(used + 1)) == None
    ensures Parse(BlockEvents(reader), words + (block + rest), used)
         == Characters(words) + Characters(block) + Parse(BlockEvents(reader), rest, used + 1)
  {
    hide Find, Parse, ParseBlock, Characters;
    ParseStep(BlockEvents(reader), words, block, rest, used);
  }

  /** Two calls of one stream never share an identifier. */
  lemma NumbersDiffer(m: nat, n: nat)
    requires m != n
    ensures ToolUseId(m) != ToolUseId(n)
  {
    var head := "qwen-tool-call-";
    assert ToolUseId(m)[|head|..] == Decimal(m) && ToolUseId(n)[|head|..] == Decimal(n);
    if ToolUseId(m) == ToolUseId(n) {
      DecimalInjective(m, n);
    }
  }
}
