/**
  Separating `<think> ... </think>` reasoning from visible text
  (split_reasoning_tags in crates/quine-llm/src/openai_compat.rs).  The only state
  carried between chunks is whether a think block is open; nothing is held back.
 */
module ReasoningTags {
  import opened Wrappers
  import opened Strings

  const OPEN_THINK := "<think>"
  const CLOSE_THINK := "</think>"

  /** The tag that ends the current mode. */
  function SoughtTag(inThink: bool): string {
    if inThink then CLOSE_THINK else OPEN_THINK
  }

  datatype Split = Split(visible: string, reasoning: string, inThink: bool) {
    /** What was collected while `think` was the mode. */
    function Side(think: bool): string {
      if think then reasoning else visible
    }

    function Add(text: string): Split {
      if inThink then this.(reasoning := reasoning + text) else this.(visible := visible + text)
    }
  }

  function SplitFrom(sofar: Split, rest: string): Split
    decreases |rest|
  {
    match Find(rest, SoughtTag(sofar.inThink))
    case None => sofar.Add(rest)
    case Some(at) =>
      SplitFrom(sofar.Add(rest[..at]).(inThink := !sofar.inThink),
                rest[at + |SoughtTag(sofar.inThink)|..])
  }

  function SplitText(text: string, inThink: bool): Split {
    SplitFrom(Split("", "", inThink), text)
  }

  method SplitReasoningTags(text: string, inThinkBlock: bool)
    returns (visible: string, reasoning: string, inThinkBlockAfter: bool)
    ensures Split(visible, reasoning, inThinkBlockAfter) == SplitText(text, inThinkBlock)
  {
    visible, reasoning, inThinkBlockAfter := "", "", inThinkBlock;
    var rest := text;
    while rest != ""
      invariant SplitFrom(Split(visible, reasoning, inThinkBlockAfter), rest) == SplitText(text, inThinkBlock)
      decreases |rest|
    {
      if inThinkBlockAfter {
        var end := Find(rest, CLOSE_THINK);
        if end.Some? {
          reasoning := reasoning + rest[..end.value];
          rest := rest[end.value + |CLOSE_THINK|..];
          inThinkBlockAfter := false;
        } else {
          reasoning := reasoning + rest;
          return;
        }
      } else {
        var start := Find(rest, OPEN_THINK);
        if start.Some? {
          visible := visible + rest[..start.value];
          rest := rest[start.value + |OPEN_THINK|..];
          inThinkBlockAfter := true;
        } else {
          visible := visible + rest;
          return;
        }
      }
    }
    assert visible + "" == visible && reasoning + "" == reasoning;
  }

  /** Text in front of what is already collected stays in front. */
  function InFront(visible: string, reasoning: string, s: Split): Split {
    Split(visible + s.visible, reasoning + s.reasoning, s.inThink)
  }

  lemma {:induction false} SplitFromInFront(visible: string, reasoning: string, sofar: Split, rest: string)
    ensures SplitFrom(InFront(visible, reasoning, sofar), rest) == InFront(visible, reasoning, SplitFrom(sofar, rest))
    decreases |rest|
  {
    hide Find;
    match Find(rest, SoughtTag(sofar.inThink))
    case None =>
      InFrontAdd(visible, reasoning, sofar, rest);
    case Some(at) =>
      InFrontAdd(visible, reasoning, sofar, rest[..at]);
      SplitFromInFront(visible, reasoning, sofar.Add(rest[..at]).(inThink := !sofar.inThink),
                       rest[at + |SoughtTag(sofar.inThink)|..]);
  }

  lemma InFrontAdd(visible: string, reasoning: string, s: Split, text: string)
    ensures InFront(visible, reasoning, s).Add(text) == InFront(visible, reasoning, s.Add(text))
  {
    assert visible + s.visible + text == visible + (s.visible + text);
    assert reasoning + s.reasoning + text == reasoning + (s.reasoning + text);
  }

  lemma SplitFromIs(sofar: Split, rest: string)
    ensures SplitFrom(sofar, rest) == InFront(sofar.visible, sofar.reasoning, SplitText(rest, sofar.inThink))
  {
    SplitFromInFront(sofar.visible, sofar.reasoning, Split("", "", sofar.inThink), rest);
    assert sofar.visible + "" == sofar.visible && sofar.reasoning + "" == sofar.reasoning;
  }

  lemma InFrontOneSide(text: string, s: Split, think: bool)
    ensures
      var r := if think then InFront("", text, s) else InFront(text, "", s);
      r.Side(think) == text + s.Side(think) && r.Side(!think) == s.Side(!think) && r.inThink == s.inThink
  {
    assert "" + s.Side(!think) == s.Side(!think);
  }

  /** One step of SplitText, for proofs. */
  lemma SplitTextStep(text: string, inThink: bool)
    ensures
      match Find(text, SoughtTag(inThink))
      case None =>
        && SplitText(text, inThink).Side(inThink) == text
        && SplitText(text, inThink).Side(!inThink) == ""
        && SplitText(text, inThink).inThink == inThink
      case Some(at) =>
        var s := SplitText(text[at + |SoughtTag(inThink)|..], !inThink);
        && SplitText(text, inThink).Side(inThink) == text[..at] + s.Side(inThink)
        && SplitText(text, inThink).Side(!inThink) == s.Side(!inThink)
        && SplitText(text, inThink).inThink == s.inThink
  {
    hide Find, InFront;
    match Find(text, SoughtTag(inThink))
    case None =>
      assert "" + text == text;
    case Some(at) =>
      var sofar := if inThink then Split("", text[..at], false) else Split(text[..at], "", true);
      var after := text[at + |SoughtTag(inThink)|..];
      assert Split("", "", inThink).Add(text[..at]).(inThink := !inThink) == sofar by {
        assert "" + text[..at] == text[..at];
      }
      assert SplitText(text, inThink) == SplitFrom(sofar, after);
      SplitFromIs(sofar, after);
      InFrontOneSide(text[..at], SplitText(after, !inThink), inThink);
  }

  // ----- Two chunks -----

  /** Splitting `a`, then `b` with the flag that `a` left. */
  function SplitTwo(a: string, b: string, inThink: bool): Split {
    SplitFrom(SplitText(a, inThink), b)
  }

  /** Where a tag that crosses the cut starts: k characters before the end of `a`. */
  ghost predicate CrossesAt(a: string, b: string, tag: string, k: nat) {
    0 < k < |tag| && EndsWith(a, tag[..k]) && StartsWith(b, tag[k..])
  }

  /** The tag sought after `a` starts at the end of `a` and is completed by `b`. */
  ghost predicate Straddles(a: string, b: string, inThink: bool) {
    var tag := SoughtTag(SplitText(a, inThink).inThink);
    exists k: nat :: CrossesAt(a, b, tag, k)
  }

  /** Only the first character of a tag is '<', so two tags never overlap. */
  lemma TagShape(inThink: bool, i: nat)
    requires i < |SoughtTag(inThink)|
    ensures (SoughtTag(inThink)[i] == '<') == (i == 0)
  {
  }

  /** Text without the start of a sought tag goes to the current side. */
  lemma SplitSkip(text: string, len: nat, inThink: bool)
    requires len <= |text| && NoMatchBefore(text, SoughtTag(inThink), len)
    ensures
      var s, rest := SplitText(text, inThink), SplitText(text[len..], inThink);
      && s.Side(inThink) == text[..len] + rest.Side(inThink)
      && s.Side(!inThink) == rest.Side(!inThink)
      && s.inThink == rest.inThink
  {
    hide Find, SplitText, Split.Side;
    var tag, after := SoughtTag(inThink), text[len..];
    SplitTextStep(text, inThink);
    SplitTextStep(after, inThink);
    FindShift(text, tag, len);
    match Find(text, tag)
    case None =>
      assert text == text[..len] + after;
    case Some(at) =>
      assert text[..at] == text[..len] + after[..at - len];
      assert text[at + |tag|..] == after[at - len + |tag|..];
  }

  lemma CrossingMatch(a: string, b: string, tag: string, at: nat)
    requires at < |a| < at + |tag|
    ensures MatchesAt(a + b, tag, at) == CrossesAt(a, b, tag, |a| - at)
  {
    var whole, k := a + b, |a| - at;
    if at + |tag| <= |whole| {
      assert whole[at..at + |tag|] == a[at..] + b[..|tag| - k];
      assert tag == tag[..k] + tag[k..];
      if CrossesAt(a, b, tag, k) {
        assert b[0..0 + |tag[k..]|] == b[..|tag| - k];
      }
      if MatchesAt(whole, tag, at) {
        assert tag[..k] == a[at..] && tag[k..] == b[..|tag| - k] == b[0..0 + |tag| - k];
      }
    }
  }

  /** With no crossing tag, the first tag of `a + b` after a tag-free `a` is the first tag of `b`. */
  lemma NoCrossingNoMatch(a: string, b: string, tag: string)
    requires tag != "" && Find(a, tag) == None
    requires forall k: nat :: !CrossesAt(a, b, tag, k)
    ensures NoMatchBefore(a + b, tag, |a|)
  {
    FindSpec(a, tag);
    forall at: nat | at < |a|
      ensures !MatchesAt(a + b, tag, at)
    {
      if at + |tag| <= |a| {
        MatchesAtExtend(a, b, tag, at);
      } else {
        CrossingMatch(a, b, tag, at);
      }
    }
  }

  /** What ends with the start of a tag does so behind the last complete tag. */
  lemma EndsBehindTag(a: string, think: bool, at: nat, other: bool, k: nat)
    requires MatchesAt(a, SoughtTag(think), at) && 0 < k < |SoughtTag(other)|
    ensures EndsWith(a, SoughtTag(other)[..k]) == EndsWith(a[at + |SoughtTag(think)|..], SoughtTag(other)[..k])
  {
    var rest, start := a[at + |SoughtTag(think)|..], SoughtTag(other)[..k];
    if k <= |rest| {
      assert a[|a| - k..] == rest[|rest| - k..];
    } else if k <= |a| {
      LastTagCharacter(a, think, at);
      var i := k - 1 - |rest|;
      assert a[|a| - k..][i] == '>' && start[i] == SoughtTag(other)[i];
    }
  }

  lemma StraddlesAfterTag(a: string, b: string, inThink: bool)
    requires Find(a, SoughtTag(inThink)).Some?
    ensures
      var rest := a[Find(a, SoughtTag(inThink)).value + |SoughtTag(inThink)|..];
      && SplitText(a, inThink).inThink == SplitText(rest, !inThink).inThink
      && (Straddles(a, b, inThink) <==> Straddles(rest, b, !inThink))
  {
    hide Find, SplitText, EndsWith, MatchesAt, SoughtTag;
    var rest := a[Find(a, SoughtTag(inThink)).value + |SoughtTag(inThink)|..];
    var at := Find(a, SoughtTag(inThink)).value;
    SplitTextStep(a, inThink);
    FindSpec(a, SoughtTag(inThink));
    var last := SplitText(a, inThink).inThink;
    forall k: nat | 0 < k < |SoughtTag(last)|
      ensures EndsWith(a, SoughtTag(last)[..k]) == EndsWith(a[at + |SoughtTag(inThink)|..], SoughtTag(last)[..k])
    {
      EndsBehindTag(a, inThink, at, last, k);
    }
    assert forall k: nat :: CrossesAt(a, b, SoughtTag(last), k) == CrossesAt(rest, b, SoughtTag(last), k);
  }

  lemma LastTagCharacter(a: string, inThink: bool, at: nat)
    requires MatchesAt(a, SoughtTag(inThink), at)
    ensures a[at + |SoughtTag(inThink)| - 1] == '>'
    ensures forall think: bool, i: nat | i < |SoughtTag(think)| - 1 :: SoughtTag(think)[i] != '>'
  {
    var tag := SoughtTag(inThink);
    assert a[at..at + |tag|][|tag| - 1] == tag[|tag| - 1];
  }

  /** If no tag straddles the cut, two chunks split like the whole text. */
  lemma {:induction false} SplitWithoutStraddle(a: string, b: string, inThink: bool)
    requires !Straddles(a, b, inThink)
    ensures SplitTwo(a, b, inThink) == SplitText(a + b, inThink)
    decreases |a|
  {
    hide Find, SplitText, SplitFrom, SplitTwo;
    match Find(a, SoughtTag(inThink))
    case None =>
      SplitTextStep(a, inThink);
      NoTagInFront(a, b, inThink);
    case Some(at) =>
      StraddlesAfterTag(a, b, inThink);
      SplitWithoutStraddle(a[at + |SoughtTag(inThink)|..], b, !inThink);
      SameAfterTag(a, b, inThink);
  }

  lemma NoTagInFront(a: string, b: string, inThink: bool)
    requires Find(a, SoughtTag(inThink)) == None
    requires forall k: nat :: !CrossesAt(a, b, SoughtTag(inThink), k)
    ensures SplitTwo(a, b, inThink) == SplitText(a + b, inThink)
  {
    hide Find, SplitText, SplitFrom, SplitTwo;
    SplitTextStep(a, inThink);
    SplitTwoIs(a, b, inThink);
    NoCrossingNoMatch(a, b, SoughtTag(inThink));
    SplitSkip(a + b, |a|, inThink);
    assert (a + b)[..|a|] == a && (a + b)[|a|..] == b;
    assert "" + SplitText(b, inThink).Side(!inThink) == SplitText(b, inThink).Side(!inThink);
    SidesDetermine(SplitTwo(a, b, inThink), SplitText(a + b, inThink), inThink);
  }

  /** Behind a first tag in `a`, both ways of splitting go on with the rest in the other mode. */
  lemma BothAfterTag(a: string, b: string, inThink: bool)
    requires Find(a, SoughtTag(inThink)).Some?
    ensures
      var at := Find(a, SoughtTag(inThink)).value;
      var rest := a[at + |SoughtTag(inThink)|..];
      && IsBehind(a[..at], SplitTwo(rest, b, !inThink), SplitTwo(a, b, inThink), inThink)
      && IsBehind(a[..at], SplitText(rest + b, !inThink), SplitText(a + b, inThink), inThink)
  {
    hide Find, SplitText, SplitFrom, SplitTwo, Split.Side, SoughtTag;
    var tag, at := SoughtTag(inThink), Find(a, SoughtTag(inThink)).value;
    var rest := a[at + |tag|..];
    FindExtend(a, b, tag);
    SplitTextStep(a, inThink);
    SplitTextStep(a + b, inThink);
    SplitTwoIs(a, b, inThink);
    SplitTwoIs(rest, b, !inThink);
    assert (a + b)[..at] == a[..at] && (a + b)[at + |tag|..] == rest + b;
    var first := SplitText(rest, !inThink);
    var second := SplitText(b, first.inThink);
    assert a[..at] + first.Side(inThink) + second.Side(inThink) == a[..at] + (first.Side(inThink) + second.Side(inThink));
  }

  /** The split `whole` is `rest` with some text in front of one side. */
  predicate IsBehind(text: string, rest: Split, whole: Split, side: bool) {
    && whole.Side(side) == text + rest.Side(side)
    && whole.Side(!side) == rest.Side(!side)
    && whole.inThink == rest.inThink
  }

  lemma BehindTells(text: string, left: Split, right: Split, wholeLeft: Split, wholeRight: Split, side: bool)
    requires IsBehind(text, left, wholeLeft, side) && IsBehind(text, right, wholeRight, side)
    ensures wholeLeft == wholeRight <==> left == right
  {
    SameFrontSameRest(text, left.Side(side), right.Side(side));
  }

  lemma SameAfterTag(a: string, b: string, inThink: bool)
    requires Find(a, SoughtTag(inThink)).Some?
    ensures
      var rest := a[Find(a, SoughtTag(inThink)).value + |SoughtTag(inThink)|..];
      SplitTwo(a, b, inThink) == SplitText(a + b, inThink)
      <==> SplitTwo(rest, b, !inThink) == SplitText(rest + b, !inThink)
  {
    hide Find, SplitText, SplitTwo, SoughtTag, IsBehind;
    var at := Find(a, SoughtTag(inThink)).value;
    var rest := a[at + |SoughtTag(inThink)|..];
    BothAfterTag(a, b, inThink);
    BehindTells(a[..at], SplitTwo(rest, b, !inThink), SplitText(rest + b, !inThink),
                SplitTwo(a, b, inThink), SplitText(a + b, inThink), inThink);
  }

  lemma SplitTwoIs(a: string, b: string, inThink: bool)
    ensures
      var first := SplitText(a, inThink);
      var second := SplitText(b, first.inThink);
      && SplitTwo(a, b, inThink).inThink == second.inThink
      && forall side: bool :: SplitTwo(a, b, inThink).Side(side) == first.Side(side) + second.Side(side)
  {
    SplitFromIs(SplitText(a, inThink), b);
  }

  lemma SidesDetermine(s: Split, t: Split, side: bool)
    requires s.Side(side) == t.Side(side) && s.Side(!side) == t.Side(!side) && s.inThink == t.inThink
    ensures s == t
  {
  }

  // ----- When a tag does straddle the cut -----

  /** Starting in the other mode never collects more on a side. */
  lemma OtherModeCollectsLess(text: string, inThink: bool)
    ensures |SplitText(text, !inThink).Side(inThink)| <= |SplitText(text, inThink).Side(inThink)|
  {
    hide Find, SplitText;
    var back, away := SoughtTag(!inThink), SoughtTag(inThink);
    SplitTextStep(text, !inThink);
    match Find(text, back)
    case None =>
    case Some(p) =>
      FindSpec(text, back);
      FindSpec(text, away);
      if exists q: nat :: q < p && MatchesAt(text, away, q) {
        var q := Find(text, away).value;
        TagsApart(text, inThink, q, p);
        SplitTextStep(text, inThink);
        var rest := text[q + |away|..];
        FindShift(text, back, q + |away|);
        SplitTextStep(rest, !inThink);
        assert rest[p - q - |away| + |back|..] == text[p + |back|..];
      } else {
        forall k: nat | k < p + |back|
          ensures !MatchesAt(text, away, k)
        {
          if p <= k && MatchesAt(text, away, k) {
            TagsApart(text, !inThink, p, k);
          }
        }
        SplitSkip(text, p + |back|, inThink);
      }
  }

  /** A tag starts at or behind the end of a tag that starts before it. */
  lemma TagsApart(text: string, think: bool, i: nat, j: nat)
    requires i <= j && MatchesAt(text, SoughtTag(think), i) && MatchesAt(text, SoughtTag(!think), j)
    ensures i + |SoughtTag(think)| <= j
  {
    var first, second := SoughtTag(think), SoughtTag(!think);
    forall n: nat | n < |first|
      ensures text[i + n] == first[n] && ((first[n] == '<') == (n == 0))
    {
      assert text[i..i + |first|][n] == text[i + n];
      TagShape(think, n);
    }
    assert text[j..j + |second|][0] == text[j] && text[j..j + |second|][1] == text[j + 1];
    assert text[i + (j - i)] == '<' && text[i + 1] == first[1];
  }

  /** A straddling tag is lost: the two chunks collect strictly more than the whole text does. */
  lemma {:induction false} StraddleIsLost(a: string, b: string, inThink: bool)
    requires Straddles(a, b, inThink)
    ensures SplitTwo(a, b, inThink) != SplitText(a + b, inThink)
    decreases |a|
  {
    hide Find, SplitText, SplitFrom;
    var tag := SoughtTag(inThink);
    match Find(a, tag)
    case None =>
      StraddleAtEnd(a, b, inThink);
    case Some(at) =>
      var rest := a[at + |tag|..];
      StraddlesAfterTag(a, b, inThink);
      StraddleIsLost(rest, b, !inThink);
      SameAfterTag(a, b, inThink);
  }

  lemma StraddleAtEnd(a: string, b: string, inThink: bool)
    requires Find(a, SoughtTag(inThink)) == None && Straddles(a, b, inThink)
    ensures SplitTwo(a, b, inThink) != SplitText(a + b, inThink)
  {
    hide Find, SplitText, SplitFrom, SplitTwo;
    var tag := SoughtTag(inThink);
    SplitTextStep(a, inThink);
    var k: nat :| CrossesAt(a, b, tag, k);
    FirstTagCrosses(a, b, inThink, k);
    var at := Find(a + b, tag).value;
    SplitTextStep(a + b, inThink);
    var cut := at + |tag| - |a|;
    assert (a + b)[at + |tag|..] == b[cut..];
    OtherModeCollectsLess(b[cut..], inThink);
    SplitTwoIs(a, b, inThink);
    SplitSkip(b, cut, inThink);
    assert |SplitText(a + b, inThink).Side(inThink)| < |SplitTwo(a, b, inThink).Side(inThink)|;
  }

  lemma SameFrontSameRest(front: string, left: string, right: string)
    ensures front + left == front + right ==> left == right
  {
    assert left == (front + left)[|front|..] && right == (front + right)[|front|..];
  }

  lemma FirstTagCrosses(a: string, b: string, inThink: bool, k: nat)
    requires Find(a, SoughtTag(inThink)) == None && CrossesAt(a, b, SoughtTag(inThink), k)
    ensures
      var tag := SoughtTag(inThink);
      match Find(a + b, tag)
      case None => false
      case Some(at) => at < |a| < at + |tag| <= |a| + |b| && NoMatchBefore(b, tag, at + |tag| - |a|)
  {
    var tag := SoughtTag(inThink);
    FindSpec(a, tag);
    FindSpec(a + b, tag);
    CrossingMatch(a, b, tag, |a| - k);
    var at := Find(a + b, tag).value;
    if at + |tag| <= |a| {
      MatchesAtExtend(a, b, tag, at);
    }
    InsideTagNoMatch(a, b, inThink, at);
  }

  /** No tag starts within the part of a tag that reaches into `b`. */
  lemma InsideTagNoMatch(a: string, b: string, inThink: bool, at: nat)
    requires MatchesAt(a + b, SoughtTag(inThink), at) && at < |a| < at + |SoughtTag(inThink)|
    ensures NoMatchBefore(b, SoughtTag(inThink), at + |SoughtTag(inThink)| - |a|)
  {
    var tag := SoughtTag(inThink);
    TagShape(inThink, 0);
    forall i: nat | i < at + |tag| - |a|
      ensures !MatchesAt(b, tag, i)
    {
      assert (a + b)[at..at + |tag|][|a| + i - at] == tag[|a| + i - at];
      assert (a + b)[|a| + i] == b[i];
      TagShape(inThink, |a| + i - at);
      assert i + |tag| <= |b| ==> b[i..i + |tag|][0] == b[i];
    }
  }

  /** Main result: two chunks split like the whole text exactly when no tag straddles the cut. */
  lemma SplitTwoIffNoStraddle(a: string, b: string, inThink: bool)
    ensures SplitTwo(a, b, inThink) == SplitText(a + b, inThink) <==> !Straddles(a, b, inThink)
  {
    if Straddles(a, b, inThink) {
      StraddleIsLost(a, b, inThink);
    } else {
      SplitWithoutStraddle(a, b, inThink);
    }
  }

  // ----- Any number of chunks -----

  function SplitAll(chunks: seq<string>, inThink: bool): Split {
    if chunks == [] then Split("", "", inThink)
    else SplitFrom(SplitAll(chunks[..|chunks| - 1], inThink), chunks[|chunks| - 1])
  }

  ghost predicate Agrees(chunks: seq<string>, inThink: bool) {
    SplitAll(chunks, inThink) == SplitText(Concat(chunks), inThink)
  }

  ghost predicate CutIsClean(chunks: seq<string>, inThink: bool, i: nat)
    requires i < |chunks|
  {
    !Straddles(Concat(chunks[..i]), chunks[i], inThink)
  }

  /**
    Main result for any number of chunks: the split agrees with the whole text all along
    exactly when no cut is straddled.
   */
  lemma {:induction false} SplitAllIffNoStraddle(chunks: seq<string>, inThink: bool)
    ensures (forall n | 0 <= n <= |chunks| :: Agrees(chunks[..n], inThink))
       <==> forall i | 0 <= i < |chunks| :: CutIsClean(chunks, inThink, i)
  {
    hide Agrees, CutIsClean;
    assert chunks[..|chunks|] == chunks;
    if chunks == [] {
      NothingAgrees(inThink);
    } else {
      var front, last := chunks[..|chunks| - 1], |chunks| - 1;
      assert forall n | 0 <= n <= |front| :: front[..n] == chunks[..n];
      SplitAllIffNoStraddle(front, inThink);
      forall i | 0 <= i < |front|
        ensures CutIsClean(front, inThink, i) == CutIsClean(chunks, inThink, i)
      {
        SameCut(chunks, inThink, i);
      }
      if Agrees(front, inThink) {
        OneMoreChunk(chunks, inThink);
      }
    }
  }

  lemma NothingAgrees(inThink: bool)
    ensures Agrees([], inThink)
  {
    SplitNothing(inThink);
  }

  lemma SameCut(chunks: seq<string>, inThink: bool, i: nat)
    requires i < |chunks| - 1
    ensures CutIsClean(chunks[..|chunks| - 1], inThink, i) == CutIsClean(chunks, inThink, i)
  {
    hide Straddles;
    assert chunks[..|chunks| - 1][..i] == chunks[..i];
  }

  lemma OneMoreChunk(chunks: seq<string>, inThink: bool)
    requires chunks != [] && Agrees(chunks[..|chunks| - 1], inThink)
    ensures Agrees(chunks, inThink) <==> CutIsClean(chunks, inThink, |chunks| - 1)
  {
    hide SplitText, SplitFrom, Straddles;
    var front, last := chunks[..|chunks| - 1], chunks[|chunks| - 1];
    assert chunks == front + [last];
    ConcatSplit(front, [last]);
    assert Concat([last]) == last;
    SplitTwoIffNoStraddle(Concat(front), last, inThink);
  }

  /** So without a straddled cut, all chunks split like the whole text. */
  lemma SplitAllIsSplitText(chunks: seq<string>, inThink: bool)
    requires forall i | 0 <= i < |chunks| :: CutIsClean(chunks, inThink, i)
    ensures SplitAll(chunks, inThink) == SplitText(Concat(chunks), inThink)
  {
    hide SplitText, SplitAll, CutIsClean, Concat;
    SplitAllIffNoStraddle(chunks, inThink);
    assert chunks[..|chunks|] == chunks;
  }

  lemma SplitNothing(inThink: bool)
    ensures SplitText("", inThink) == Split("", "", inThink)
  {
    assert "" + "" == "";
  }

  // ----- The pieces rebuild the input -----

  datatype Segment = Text(text: string, inThink: bool) | Tag(closing: bool)

  function Segments(text: string, inThink: bool): seq<Segment>
    decreases |text|
  {
    match Find(text, SoughtTag(inThink))
    case None => [Text(text, inThink)]
    case Some(at) =>
      [Text(text[..at], inThink), Tag(inThink)] + Segments(text[at + |SoughtTag(inThink)|..], !inThink)
  }

  function Source(segments: seq<Segment>): string {
    if segments == [] then ""
    else (match segments[0] case Text(text, _) => text case Tag(closing) => SoughtTag(closing)) + Source(segments[1..])
  }

  function Collected(segments: seq<Segment>, inThink: bool): string {
    if segments == [] then ""
    else
      (match segments[0] case Text(text, side) => (if side == inThink then text else "") case Tag(_) => "")
      + Collected(segments[1..], inThink)
  }

  lemma SegmentsStep(text: string, inThink: bool, rest: seq<Segment>)
    ensures
      var segments := [Text(text, inThink), Tag(inThink)] + rest;
      && Source(segments) == text + (SoughtTag(inThink) + Source(rest))
      && Collected(segments, inThink) == text + Collected(rest, inThink)
      && Collected(segments, !inThink) == Collected(rest, !inThink)
  {
    var segments := [Text(text, inThink), Tag(inThink)] + rest;
    assert segments[1..] == [Tag(inThink)] + rest;
    assert segments[1..][1..] == rest;
    assert "" + Collected(rest, inThink) == Collected(rest, inThink);
    assert "" + ("" + Collected(rest, !inThink)) == Collected(rest, !inThink);
  }

  /** Visible text, reasoning and the consumed tags are the input, in order. */
  lemma {:induction false} SegmentsRebuild(text: string, inThink: bool)
    ensures
      var segments := Segments(text, inThink);
      && Source(segments) == text
      && Collected(segments, false) == SplitText(text, inThink).visible
      && Collected(segments, true) == SplitText(text, inThink).reasoning
    decreases |text|
  {
    hide Find, SplitText, Source, Collected;
    var tag := SoughtTag(inThink);
    SplitTextStep(text, inThink);
    match Find(text, tag)
    case None =>
      LastSegment(text, inThink);
    case Some(at) =>
      var rest := text[at + |tag|..];
      SegmentsRebuild(rest, !inThink);
      FindSpec(text, tag);
      assert text == text[..at] + (tag + rest);
      SegmentsStep(text[..at], inThink, Segments(rest, !inThink));
  }

  lemma LastSegment(text: string, inThink: bool)
    ensures Source([Text(text, inThink)]) == text
    ensures Collected([Text(text, inThink)], inThink) == text && Collected([Text(text, inThink)], !inThink) == ""
  {
    assert text + "" == text;
  }

  /** No tag is left inside the text that was collected while looking for it. */
  lemma {:induction false} SegmentsHoldNoTag(text: string, inThink: bool)
    ensures forall s | s in Segments(text, inThink) && s.Text? :: Find(s.text, SoughtTag(s.inThink)) == None
    decreases |text|
  {
    hide Find;
    var tag := SoughtTag(inThink);
    match Find(text, tag)
    case None =>
    case Some(at) =>
      SegmentsHoldNoTag(text[at + |tag|..], !inThink);
      FindSpec(text, tag);
      forall k: nat | k <= at
        ensures !MatchesAt(text[..at], tag, k)
      {
        if k + |tag| <= at {
          MatchesAtExtend(text[..at], text[at..], tag, k);
          assert text[..at] + text[at..] == text;
        }
      }
      FindIsNone(text[..at], tag);
  }

  // ----- The tags themselves -----

  lemma OpenFound(before: string, rest: string, inThink: bool, tag: string)
    requires tag == (if inThink then "</think>" else "<think>")
    requires NoMatchBefore(before + (tag + rest), tag, |before|)
    ensures
      var s, more := SplitText(before + (tag + rest), inThink), SplitText(rest, !inThink);
      && s.Side(inThink) == before + more.Side(inThink) && s.Side(!inThink) == more.Side(!inThink) && s.inThink == more.inThink
  {
    hide Find, SplitText, Split.Side;
    var text := before + (tag + rest);
    assert SoughtTag(inThink) == tag;
    assert text[|before|..|before| + |tag|] == tag;
    FindIs(text, tag, |before|);
    SplitTextStep(text, inThink);
    assert text[..|before|] == before && text[|before| + |tag|..] == rest;
  }

  /** Main result: the text between "<think>" and the next "</think>" is reasoning, the text around it is visible. */
  lemma ThinkBlockIsReasoning(visible: string, reasoning: string, after: string)
    requires NoMatchBefore(visible + ("<think>" + (reasoning + ("</think>" + after))), "<think>", |visible|)
    requires NoMatchBefore(reasoning + ("</think>" + after), "</think>", |reasoning|)
    ensures
      var whole := SplitText(visible + ("<think>" + (reasoning + ("</think>" + after))), false);
      var more := SplitText(after, false);
      && whole.visible == visible + more.visible
      && whole.reasoning == reasoning + more.reasoning
      && whole.inThink == more.inThink
  {
    hide Find, SplitText;
    OpenFound(visible, reasoning + ("</think>" + after), false, "<think>");
    OpenFound(reasoning, after, true, "</think>");
    assert SplitText(reasoning + ("</think>" + after), true).Side(false) == SplitText(after, false).Side(false);
  }

  /** Text without a tag is all of one kind, and an open block stays open. */
  lemma WithoutTag(text: string)
    ensures Find(text, "<think>") == None ==> SplitText(text, false) == Split(text, "", false)
    ensures Find(text, "</think>") == None ==> SplitText(text, true) == Split("", text, true)
  {
    hide Find, SplitText;
    SplitTextStep(text, false);
    SplitTextStep(text, true);
  }
}
