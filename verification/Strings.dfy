/**
  Text searching and trimming, in the terms of the standard library of the
  original: `find`, `rfind`, `contains`, `strip_prefix`, `trim`.  Text is a
  sequence of characters and positions count characters.
 */
module Strings {
  import opened Wrappers

  /** `pattern` occurs in `text` starting at `index`. */
  predicate MatchesAt(text: string, pattern: string, index: nat) {
    index + |pattern| <= |text| && text[index..index + |pattern|] == pattern
  }

  predicate Contains(text: string, pattern: string) {
    Find(text, pattern).Some?
  }

  /** The position of the first occurrence of `pattern`; FindSpec says it is the first. */
  function Find(text: string, pattern: string): (index: Option<nat>)
    ensures index.Some? ==> index.value + |pattern| <= |text|
  {
    FindFrom(text, pattern, 0)
  }

  function FindFrom(text: string, pattern: string, start: nat): (index: Option<nat>)
    ensures index.Some? ==> start <= index.value && index.value + |pattern| <= |text|
    decreases |text| - start
  {
    if start + |pattern| > |text| then None
    else if MatchesAt(text, pattern, start) then Some(start)
    else FindFrom(text, pattern, start + 1)
  }

  /** No occurrence starts before `end`. */
  ghost predicate NoMatchBefore(text: string, pattern: string, end: nat) {
    forall k: nat | k < end :: !MatchesAt(text, pattern, k)
  }

  lemma {:induction false} FindFromSpec(text: string, pattern: string, start: nat)
    requires NoMatchBefore(text, pattern, start)
    ensures
      match FindFrom(text, pattern, start)
      case Some(index) => MatchesAt(text, pattern, index) && NoMatchBefore(text, pattern, index)
      case None => NoMatchBefore(text, pattern, |text| + 1)
    decreases |text| - start
  {
    if start + |pattern| <= |text| && !MatchesAt(text, pattern, start) {
      FindFromSpec(text, pattern, start + 1);
    }
  }

  lemma FindSpec(text: string, pattern: string)
    ensures
      match Find(text, pattern)
      case Some(index) => MatchesAt(text, pattern, index) && NoMatchBefore(text, pattern, index)
      case None => NoMatchBefore(text, pattern, |text| + 1)
  {
    FindFromSpec(text, pattern, 0);
  }

  /** A first occurrence is what Find returns. */
  lemma FindIs(text: string, pattern: string, index: nat)
    requires MatchesAt(text, pattern, index) && NoMatchBefore(text, pattern, index)
    ensures Find(text, pattern) == Some(index)
  {
    FindSpec(text, pattern);
  }

  lemma FindIsNone(text: string, pattern: string)
    requires NoMatchBefore(text, pattern, |text| + 1)
    ensures Find(text, pattern) == None
  {
    FindSpec(text, pattern);
  }

  lemma AbsentCharacter(text: string, c: char)
    requires c !in text
    ensures Find(text, [c]) == None
  {
    forall k: nat | k <= |text|
      ensures !MatchesAt(text, [c], k)
    {
      assert k < |text| ==> text[k..k + 1][0] == text[k];
    }
    FindIsNone(text, [c]);
  }

  /** An occurrence stays where it is when text is added at the end. */
  lemma FindsCharacter(text: string, c: char)
    ensures Contains(text, [c]) <==> c in text
  {
    FindSpec(text, [c]);
    if c in text {
      var k: nat :| k < |text| && text[k] == c;
      assert text[k..k + 1] == [c];
      assert MatchesAt(text, [c], k);
    } else {
      AbsentCharacter(text, c);
    }
  }

  lemma MatchesAtExtend(text: string, future: string, pattern: string, index: nat)
    requires index + |pattern| <= |text|
    ensures MatchesAt(text + future, pattern, index) == MatchesAt(text, pattern, index)
  {
    assert (text + future)[index..index + |pattern|] == text[index..index + |pattern|];
  }

  lemma FindExtend(text: string, future: string, pattern: string)
    requires Find(text, pattern).Some?
    ensures Find(text + future, pattern) == Find(text, pattern)
  {
    FindSpec(text, pattern);
    var index := Find(text, pattern).value;
    forall k: nat | k <= index
      ensures MatchesAt(text + future, pattern, k) == MatchesAt(text, pattern, k)
    {
      MatchesAtExtend(text, future, pattern, k);
    }
    FindIs(text + future, pattern, index);
  }

  /** Dropping a prefix in which no occurrence starts moves the first occurrence. */
  lemma FindShift(text: string, pattern: string, len: nat)
    requires len <= |text| && NoMatchBefore(text, pattern, len)
    ensures match Find(text, pattern)
            case None => Find(text[len..], pattern) == None
            case Some(index) => len <= index && Find(text[len..], pattern) == Some(index - len)
  {
    FindSpec(text, pattern);
    var rest := text[len..];
    forall k: nat | k + len + |pattern| <= |text|
      ensures MatchesAt(rest, pattern, k) == MatchesAt(text, pattern, k + len)
    {
      assert rest[k..k + |pattern|] == text[k + len..k + len + |pattern|];
    }
    match Find(text, pattern)
    case None => FindIsNone(rest, pattern);
    case Some(index) => FindIs(rest, pattern, index - len);
  }

  /** The last occurrence of a character. */
  function FindLastChar(text: string, c: char): (index: Option<nat>)
    ensures index.Some? ==> index.value < |text| && text[index.value] == c
    ensures index.Some? ==> forall k | index.value < k < |text| :: text[k] != c
    ensures index.None? ==> c !in text
  {
    if text == "" then None
    else if text[|text| - 1] == c then Some(|text| - 1)
    else FindLastChar(text[..|text| - 1], c)
  }

  predicate StartsWith(text: string, prefix: string) {
    MatchesAt(text, prefix, 0)
  }

  predicate EndsWith(text: string, suffix: string) {
    |suffix| <= |text| && text[|text| - |suffix|..] == suffix
  }

  function StripPrefix(text: string, prefix: string): Option<string> {
    if StartsWith(text, prefix) then Some(text[|prefix|..]) else None
  }

  function StripSuffix(text: string, suffix: string): Option<string> {
    if EndsWith(text, suffix) then Some(text[..|text| - |suffix|]) else None
  }

  /** The Unicode White_Space property, which `trim` uses. */
  predicate IsWhitespace(c: char) {
    || '\U{0009}' <= c <= '\U{000D}'
    || c == ' '
    || c == '\U{0085}'
    || c == '\U{00A0}'
    || c == '\U{1680}'
    || '\U{2000}' <= c <= '\U{200A}'
    || c == '\U{2028}'
    || c == '\U{2029}'
    || c == '\U{202F}'
    || c == '\U{205F}'
    || c == '\U{3000}'
  }

  function TrimStart(text: string): (r: string)
    ensures |r| <= |text| && r == text[|text| - |r|..]
    ensures r != "" ==> !IsWhitespace(r[0])
    ensures forall i | 0 <= i < |text| - |r| :: IsWhitespace(text[i])
  {
    if text != "" && IsWhitespace(text[0]) then TrimStart(text[1..]) else text
  }

  function TrimEnd(text: string): (r: string)
    ensures r <= text
    ensures r != "" ==> !IsWhitespace(r[|r| - 1])
    ensures forall i | |r| <= i < |text| :: IsWhitespace(text[i])
  {
    if text != "" && IsWhitespace(text[|text| - 1]) then TrimEnd(text[..|text| - 1]) else text
  }

  function Trim(text: string): string {
    TrimEnd(TrimStart(text))
  }

  /** All of the pieces, one after another. */
  function Concat(pieces: seq<string>): string {
    if pieces == [] then "" else pieces[0] + Concat(pieces[1..])
  }

  lemma ConcatFirst(first: string, rest: seq<string>)
    ensures Concat([first] + rest) == first + Concat(rest)
  {
    assert ([first] + rest)[1..] == rest;
  }

  lemma {:induction false} ConcatSplit(left: seq<string>, right: seq<string>)
    ensures Concat(left + right) == Concat(left) + Concat(right)
  {
    if left == [] {
      assert left + right == right;
      assert Concat([]) == "";
    } else {
      hide Concat;
      var first, rest := left[0], left[1..];
      ConcatSplit(rest, right);
      assert left == [first] + rest && left + right == [first] + (rest + right);
      ConcatFirst(first, rest);
      ConcatFirst(first, rest + right);
      SameText(first, Concat(rest), Concat(right));
    }
  }

  lemma SameText(a: string, b: string, c: string)
    ensures a + b + c == a + (b + c)
  {
  }
}
