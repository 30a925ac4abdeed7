/**
  Rebuilding tool calls from the fragments of a streamed response
  (ToolCallAccumulator in crates/quine-llm/src/openai_compat.rs).
 */
module ToolCallAccumulation {
  import opened Wrappers
  import opened Decimals
  import opened QwenBlocks

  datatype FunctionDelta = FunctionDelta(name: Option<string>, arguments: Option<string>)

  datatype Delta = Delta(index: Option<nat>, id: Option<string>, function_: Option<FunctionDelta>) {
    function Name(): Option<string> {
      if function_.Some? then function_.value.name else None
    }

    function Fragment(): string {
      if function_.Some? && function_.value.arguments.Some? then function_.value.arguments.value else ""
    }
  }

  datatype Call = Call(id: string, name: string, arguments: string) {
    predicate HasContent() {
      name != "" || arguments != ""
    }
  }

  const BLANK := Call("", "", "")

  function GeneratedId(index: nat): string {
    "openai-tool-call-" + Decimal(index)
  }

  /** The accumulator as a value. */
  datatype State = State(calls: seq<Call>, used: nat)

  /** The first call with the given identifier. */
  function Position(calls: seq<Call>, id: string): (index: Option<nat>)
    ensures index.Some? ==> index.value < |calls| && calls[index.value].id == id
    ensures index.Some? ==> forall k | 0 <= k < index.value :: calls[k].id != id
    ensures index.None? ==> forall k | 0 <= k < |calls| :: calls[k].id != id
  {
    if calls == [] then None
    else if calls[0].id == id then Some(0)
    else match Position(calls[1..], id) case Some(i) => Some(i + 1) case None => None
  }

  /** The call a delta belongs to; an index past the end stands for a new call. */
  function TargetIndex(calls: seq<Call>, delta: Delta, missingIndexStartsNewCall: bool): nat {
    match delta.index
    case Some(index) => index
    case None =>
      if !missingIndexStartsNewCall then 0 else
      match delta.id
      case None => |calls|
      case Some(id) => match Position(calls, id) case Some(existing) => existing case None => |calls|
  }

  function Grown(calls: seq<Call>, len: nat): (r: seq<Call>)
    ensures |r| == if |calls| < len then len else |calls|
    ensures calls <= r && forall i | |calls| <= i < |r| :: r[i] == BLANK
  {
    if |calls| < len then calls + seq(len - |calls|, _ => BLANK) else calls
  }

  function Extended(call: Call, delta: Delta): Call {
    Call(if delta.id.Some? then delta.id.value else call.id,
         if delta.Name().Some? then delta.Name().value else call.name,
         call.arguments + delta.Fragment())
  }

  predicate NeedsId(call: Call) {
    call.id == "" && call.HasContent()
  }

  function WithId(call: Call, used: nat): Call {
    if NeedsId(call) then call.(id := GeneratedId(used + 1)) else call
  }

  function Step(state: State, delta: Delta, missingIndexStartsNewCall: bool): State {
    var index := TargetIndex(state.calls, delta, missingIndexStartsNewCall);
    var calls := Grown(state.calls, index + 1);
    var call := Extended(calls[index], delta);
    State(calls[index := WithId(call, state.used)], state.used + if NeedsId(call) then 1 else 0)
  }

  class ToolCallAccumulator {
    var calls: seq<Call>
    var nextToolCallIndex: nat

    constructor ()
      ensures Abstract() == State([], 0)
    {
      calls, nextToolCallIndex := [], 0;
    }

    ghost function Abstract(): State
      reads this
    {
      State(calls, nextToolCallIndex)
    }

    method NextToolUseId() returns (id: string)
      modifies this`nextToolCallIndex
      ensures nextToolCallIndex == old(nextToolCallIndex) + 1 && id == GeneratedId(nextToolCallIndex)
    {
      nextToolCallIndex := nextToolCallIndex + 1;
      id := "openai-tool-call-" + Decimal(nextToolCallIndex);
    }

    /** The entry a delta belongs to, after growing the list so that it exists. */
    method EntryFor(delta: Delta, missingIndexStartsNewCall: bool) returns (index: nat)
      modifies this`calls
      ensures index == TargetIndex(old(calls), delta, missingIndexStartsNewCall)
      ensures calls == Grown(old(calls), index + 1)
    {
      match delta.index {
        case Some(given) => index := given;
        case None =>
          if missingIndexStartsNewCall {
            var existing := if delta.id.Some? then Position(calls, delta.id.value) else None;
            if existing.Some? {
              index := existing.value;
            } else {
              calls := calls + [BLANK];
              index := |calls| - 1;
            }
          } else {
            index := 0;
          }
      }
      ghost var before := calls;
      while |calls| <= index
        invariant before <= calls
        invariant |calls| <= |before| || |calls| <= index + 1
        invariant forall i | |before| <= i < |calls| :: calls[i] == BLANK
      {
        calls := calls + [BLANK];
      }
    }

    method ExtendEntry(index: nat, delta: Delta)
      requires index < |calls|
      modifies this`calls
      ensures calls == old(calls)[index := Extended(old(calls)[index], delta)]
    {
      if delta.id.Some? {
        calls := calls[index := calls[index].(id := delta.id.value)];
      }
      if delta.function_.Some? {
        if delta.function_.value.name.Some? {
          calls := calls[index := calls[index].(name := delta.function_.value.name.value)];
        }
        if delta.function_.value.arguments.Some? {
          calls := calls[index := calls[index].(arguments := calls[index].arguments + delta.function_.value.arguments.value)];
        }
      }
      assert old(calls)[index].arguments + "" == old(calls)[index].arguments;
    }

    method ProcessDelta(delta: Delta, missingIndexStartsNewCall: bool)
      modifies this
      ensures Abstract() == Step(old(Abstract()), delta, missingIndexStartsNewCall)
    {
      hide TargetIndex, Grown, Extended, GeneratedId;
      var index := EntryFor(delta, missingIndexStartsNewCall);
      ExtendEntry(index, delta);
      if calls[index].id == "" && (calls[index].name != "" || calls[index].arguments != "") {
        var id := NextToolUseId();
        calls := calls[index := calls[index].(id := id)];
      }
    }

    /** The finished calls, in index order. */
    method TakeCompleted(reader: JsonReader) returns (events: seq<Event>)
      ensures events == Completed(reader, calls)
    {
      events := [];
      for i := 0 to |calls|
        invariant events == Completed(reader, calls[..i])
      {
        assert calls[..i + 1][..i] == calls[..i];
        var call := calls[i];
        if call.id != "" {
          var name := InternalToolName(call.name);
          if name.Some? {
            var parsed := reader(call.arguments);
            events := events + [ToolCall(call.id, name.value, if parsed.Some? then parsed.value else JsonObject(map[]))];
          }
        }
      }
      assert calls[..|calls|] == calls;
    }
  }

  // ----- Tool names that clash with tools of the provider -----

  const INTERNAL_WEB_SEARCH := "web_search"
  const PROVIDER_WEB_SEARCH := "quine_search"
  const INTERNAL_WEB_OPEN := "web_open"
  const PROVIDER_WEB_OPEN := "quine_open_url"
  const RESERVED_PREVIEW := "web_search_preview"

  function ProviderToolName(name: string): string {
    if name == INTERNAL_WEB_SEARCH then PROVIDER_WEB_SEARCH
    else if name == INTERNAL_WEB_OPEN then PROVIDER_WEB_OPEN
    else name
  }

  function InternalToolName(name: string): Option<string> {
    if name == PROVIDER_WEB_SEARCH then Some(INTERNAL_WEB_SEARCH)
    else if name == PROVIDER_WEB_OPEN then Some(INTERNAL_WEB_OPEN)
    else if name == INTERNAL_WEB_SEARCH || name == RESERVED_PREVIEW then None
    else Some(name)
  }

  /** A tool keeps its name on the way out and back, except the aliases and the reserved preview name. */
  lemma NameRoundTrip(name: string)
    ensures InternalToolName(ProviderToolName(name)) == Some(name)
       <==> name !in {PROVIDER_WEB_SEARCH, PROVIDER_WEB_OPEN, RESERVED_PREVIEW}
  {
    assert |PROVIDER_WEB_SEARCH| != |INTERNAL_WEB_SEARCH| && |PROVIDER_WEB_OPEN| != |INTERNAL_WEB_OPEN|;
    assert |PROVIDER_WEB_SEARCH| != |PROVIDER_WEB_OPEN| && |RESERVED_PREVIEW| != |PROVIDER_WEB_OPEN|;
    assert |RESERVED_PREVIEW| != |PROVIDER_WEB_SEARCH| && |INTERNAL_WEB_SEARCH| != |RESERVED_PREVIEW|;
    assert |INTERNAL_WEB_SEARCH| != |INTERNAL_WEB_OPEN| && |INTERNAL_WEB_OPEN| != |PROVIDER_WEB_SEARCH|;
  }

  function ArgumentValue(reader: JsonReader, arguments: string): Json {
    match reader(arguments)
    case Some(value) => value
    case None => JsonObject(map[])
  }

  function CompletedCall(reader: JsonReader, call: Call): seq<Event> {
    if call.id == "" then []
    else
      match InternalToolName(call.name)
      case None => []
      case Some(name) => [ToolCall(call.id, name, ArgumentValue(reader, call.arguments))]
  }

  function Completed(reader: JsonReader, calls: seq<Call>): seq<Event> {
    if calls == [] then []
    else Completed(reader, calls[..|calls| - 1]) + CompletedCall(reader, calls[|calls| - 1])
  }

  // ----- Whole runs -----

  function Run(deltas: seq<Delta>, missingIndexStartsNewCall: bool): State {
    if deltas == [] then State([], 0)
    else Step(Run(deltas[..|deltas| - 1], missingIndexStartsNewCall), deltas[|deltas| - 1], missingIndexStartsNewCall)
  }

  /** The fragments sent for one index, in the order they were sent. */
  function FragmentsAt(deltas: seq<Delta>, index: nat): string {
    if deltas == [] then ""
    else
      FragmentsAt(deltas[..|deltas| - 1], index)
      + if deltas[|deltas| - 1].index == Some(index) then deltas[|deltas| - 1].Fragment() else ""
  }

  /** The last name sent for one index. */
  function LastNameAt(deltas: seq<Delta>, index: nat): string {
    if deltas == [] then ""
    else
      var last := deltas[|deltas| - 1];
      if last.index == Some(index) && last.Name().Some? then last.Name().value
      else LastNameAt(deltas[..|deltas| - 1], index)
  }

  /** The last identifier sent for one index. */
  function LastIdAt(deltas: seq<Delta>, index: nat): string {
    if deltas == [] then ""
    else
      var last := deltas[|deltas| - 1];
      if last.index == Some(index) && last.id.Some? then last.id.value
      else LastIdAt(deltas[..|deltas| - 1], index)
  }

  ghost predicate Indexed(deltas: seq<Delta>) {
    forall d | d in deltas :: d.index.Some?
  }

  /** No entry with a name or arguments is left without an identifier. */
  ghost predicate Identified(calls: seq<Call>) {
    forall i | 0 <= i < |calls| :: calls[i].HasContent() ==> calls[i].id != ""
  }

  lemma StepIdentifies(state: State, delta: Delta, missingIndexStartsNewCall: bool)
    requires Identified(state.calls)
    ensures Identified(Step(state, delta, missingIndexStartsNewCall).calls)
  {
  }

  /** In every run, with or without indexes, entries with content have an identifier. */
  lemma {:induction false} RunIdentifies(deltas: seq<Delta>, missingIndexStartsNewCall: bool)
    ensures Identified(Run(deltas, missingIndexStartsNewCall).calls)
  {
    if deltas != [] {
      RunIdentifies(deltas[..|deltas| - 1], missingIndexStartsNewCall);
      StepIdentifies(Run(deltas[..|deltas| - 1], missingIndexStartsNewCall), deltas[|deltas| - 1], missingIndexStartsNewCall);
    }
  }

  /** What one indexed delta does to the entries. */
  lemma StepAt(state: State, delta: Delta, missingIndexStartsNewCall: bool)
    requires delta.index.Some?
    ensures
      var index, after := delta.index.value, Step(state, delta, missingIndexStartsNewCall).calls;
      && |after| == (if |state.calls| <= index then index + 1 else |state.calls|)
      && (forall i | 0 <= i < |after| && i != index :: after[i] == if i < |state.calls| then state.calls[i] else BLANK)
      && var call := Extended(if index < |state.calls| then state.calls[index] else BLANK, delta);
         && after[index].name == call.name && after[index].arguments == call.arguments
         && (call.id != "" ==> after[index].id == call.id)
  {
  }

  /** The entries reach exactly as far as the largest index sent. */
  lemma {:induction false} RunReach(deltas: seq<Delta>, missingIndexStartsNewCall: bool)
    requires Indexed(deltas)
    ensures
      var calls := Run(deltas, missingIndexStartsNewCall).calls;
      && (forall d | d in deltas :: d.index.value < |calls|)
      && (calls == [] || exists d :: d in deltas && d.index == Some(|calls| - 1))
  {
    hide Step;
    if deltas != [] {
      var front, last := deltas[..|deltas| - 1], deltas[|deltas| - 1];
      assert deltas == front + [last];
      assert last in deltas;
      StepAt(Run(front, missingIndexStartsNewCall), last, missingIndexStartsNewCall);
      RunReach(front, missingIndexStartsNewCall);
      var before, after := Run(front, missingIndexStartsNewCall).calls, Run(deltas, missingIndexStartsNewCall).calls;
      if |after| == |before| {
        var d :| d in front && d.index == Some(|before| - 1);
        assert d in deltas;
      }
    }
  }

  /**
    Main result: with explicit indexes, in any interleaving, entry i holds the
    fragments, the last name and the last identifier sent for i.
   */
  lemma {:induction false} RunByIndex(deltas: seq<Delta>, missingIndexStartsNewCall: bool, i: nat)
    requires Indexed(deltas)
    requires i < |Run(deltas, missingIndexStartsNewCall).calls|
    ensures
      var call := Run(deltas, missingIndexStartsNewCall).calls[i];
      && call.arguments == FragmentsAt(deltas, i)
      && call.name == LastNameAt(deltas, i)
      && (LastIdAt(deltas, i) != "" ==> call.id == LastIdAt(deltas, i))
  {
    hide Step;
    var front, last := deltas[..|deltas| - 1], deltas[|deltas| - 1];
    assert deltas == front + [last];
    assert last in deltas;
    var before := Run(front, missingIndexStartsNewCall);
    StepAt(before, last, missingIndexStartsNewCall);
    assert forall d | d in front :: d in deltas;
    if i < |before.calls| {
      RunByIndex(front, missingIndexStartsNewCall, i);
    } else {
      RunReach(front, missingIndexStartsNewCall);
      NothingSent(front, i);
    }
    hide Run;
    OneMoreSent(front, last, i);
  }

  /** What one more delta adds to what was sent for an index. */
  lemma OneMoreSent(front: seq<Delta>, last: Delta, i: nat)
    ensures
      var deltas := front + [last];
      if last.index == Some(i) then
        && FragmentsAt(deltas, i) == FragmentsAt(front, i) + last.Fragment()
        && LastNameAt(deltas, i) == (if last.Name().Some? then last.Name().value else LastNameAt(front, i))
        && LastIdAt(deltas, i) == (if last.id.Some? then last.id.value else LastIdAt(front, i))
      else
        && FragmentsAt(deltas, i) == FragmentsAt(front, i)
        && LastNameAt(deltas, i) == LastNameAt(front, i)
        && LastIdAt(deltas, i) == LastIdAt(front, i)
  {
    assert (front + [last])[..|front|] == front;
    assert FragmentsAt(front, i) + "" == FragmentsAt(front, i);
  }

  lemma {:induction false} NothingSent(deltas: seq<Delta>, i: nat)
    requires forall d | d in deltas :: d.index != Some(i)
    ensures FragmentsAt(deltas, i) == "" && LastNameAt(deltas, i) == "" && LastIdAt(deltas, i) == ""
  {
    if deltas != [] {
      assert deltas[|deltas| - 1] in deltas;
      NothingSent(deltas[..|deltas| - 1], i);
    }
  }

  // ----- Deltas without an index -----

  function FragmentsOf(deltas: seq<Delta>, id: string): string {
    if deltas == [] then ""
    else
      FragmentsOf(deltas[..|deltas| - 1], id)
      + if deltas[|deltas| - 1].id == Some(id) then deltas[|deltas| - 1].Fragment() else ""
  }

  function LastNameOf(deltas: seq<Delta>, id: string): string {
    if deltas == [] then ""
    else
      var last := deltas[|deltas| - 1];
      if last.id == Some(id) && last.Name().Some? then last.Name().value
      else LastNameOf(deltas[..|deltas| - 1], id)
  }

  ghost predicate NamedById(deltas: seq<Delta>) {
    forall d | d in deltas :: d.index.None? && d.id.Some? && d.id.value != ""
  }

  ghost predicate DistinctIds(calls: seq<Call>) {
    forall i, j | 0 <= i < j < |calls| :: calls[i].id != calls[j].id
  }

  lemma StepById(state: State, delta: Delta)
    requires delta.index.None? && delta.id.Some? && delta.id.value != ""
    requires DistinctIds(state.calls)
    ensures
      var after := Step(state, delta, true).calls;
      && |state.calls| <= |after| <= |state.calls| + 1
      && DistinctIds(after)
      && (forall i | 0 <= i < |state.calls| ::
            if state.calls[i].id == delta.id.value
            then after[i] == Extended(state.calls[i], delta)
            else after[i] == state.calls[i])
      && (|after| == |state.calls| <==> exists i :: 0 <= i < |state.calls| && state.calls[i].id == delta.id.value)
      && (|after| > |state.calls| ==> after[|state.calls|] == Extended(BLANK, delta))
  {
  }

  /** Without indexes, a provider that repeats identifiers gets one entry per identifier. */
  lemma {:induction false} RunById(deltas: seq<Delta>)
    requires NamedById(deltas)
    ensures
      var calls := Run(deltas, true).calls;
      && DistinctIds(calls)
      && (forall d | d in deltas :: exists i :: 0 <= i < |calls| && calls[i].id == d.id.value)
      && (forall i | 0 <= i < |calls| :: HoldsItsOwn(deltas, calls[i]))
  {
    hide Step, Extended;
    if deltas != [] {
      var front, last := deltas[..|deltas| - 1], deltas[|deltas| - 1];
      assert deltas == front + [last];
      assert last in deltas;
      RunById(front);
      var before, after := Run(front, true).calls, Run(deltas, true).calls;
      StepById(Run(front, true), last);
      forall i | 0 <= i < |after|
        ensures HoldsItsOwn(deltas, after[i])
      {
        if i < |before| {
          HoldsAfter(front, last, before[i]);
        } else {
          HoldsFirst(front, last, before);
        }
      }
      forall d | d in deltas
        ensures exists i :: 0 <= i < |after| && after[i].id == d.id.value
      {
        ExtendedKeepsId(before, after, last);
        if d in front {
          var i :| 0 <= i < |before| && before[i].id == d.id.value;
          assert after[i].id == d.id.value;
        }
      }
    }
  }

  /** An entry holds the fragments and the last name sent with its identifier. */
  ghost predicate HoldsItsOwn(deltas: seq<Delta>, call: Call) {
    && call.id != ""
    && call.arguments == FragmentsOf(deltas, call.id)
    && call.name == LastNameOf(deltas, call.id)
    && exists d :: d in deltas && d.id == Some(call.id)
  }

  lemma ExtendedKeepsId(before: seq<Call>, after: seq<Call>, delta: Delta)
    requires |before| <= |after| <= |before| + 1 && delta.id.Some?
    requires forall i | 0 <= i < |before| ::
               after[i] == if before[i].id == delta.id.value then Extended(before[i], delta) else before[i]
    requires |after| == |before| ==> exists i :: 0 <= i < |before| && before[i].id == delta.id.value
    requires |after| > |before| ==> after[|before|] == Extended(BLANK, delta)
    ensures forall i | 0 <= i < |before| :: after[i].id == before[i].id
    ensures exists i :: 0 <= i < |after| && after[i].id == delta.id.value
  {
    if |after| == |before| {
      var i :| 0 <= i < |before| && before[i].id == delta.id.value;
      assert after[i].id == delta.id.value;
    } else {
      assert after[|before|].id == delta.id.value;
    }
  }

  lemma HoldsAfter(front: seq<Delta>, last: Delta, call: Call)
    requires HoldsItsOwn(front, call) && last.id.Some?
    ensures HoldsItsOwn(front + [last], if call.id == last.id.value then Extended(call, last) else call)
  {
    var deltas := front + [last];
    assert deltas[..|front|] == front;
    var d :| d in front && d.id == Some(call.id);
    assert d in deltas;
    assert FragmentsOf(front, call.id) + "" == FragmentsOf(front, call.id);
  }

  lemma HoldsFirst(front: seq<Delta>, last: Delta, before: seq<Call>)
    requires last.id.Some? && last.id.value != ""
    requires NamedById(front)
    requires forall d | d in front :: exists i :: 0 <= i < |before| && before[i].id == d.id.value
    requires forall i | 0 <= i < |before| :: before[i].id != last.id.value
    ensures HoldsItsOwn(front + [last], Extended(BLANK, last))
  {
    var deltas := front + [last];
    assert deltas[..|front|] == front && last in deltas;
    NothingSentFor(front, last.id.value);
  }

  lemma {:induction false} NothingSentFor(deltas: seq<Delta>, id: string)
    requires forall d | d in deltas :: d.id != Some(id)
    ensures FragmentsOf(deltas, id) == "" && LastNameOf(deltas, id) == ""
  {
    if deltas != [] {
      assert deltas[|deltas| - 1] in deltas;
      NothingSentFor(deltas[..|deltas| - 1], id);
    }
  }

  ghost predicate Bare(deltas: seq<Delta>) {
    forall d | d in deltas :: d.index.None? && d.id.None?
  }

  /** With neither index nor identifier, every delta is a call of its own where that is enabled ... */
  lemma {:induction false} RunBareSeparate(deltas: seq<Delta>)
    requires Bare(deltas)
    ensures
      var calls := Run(deltas, true).calls;
      && |calls| == |deltas|
      && forall k | 0 <= k < |deltas| ::
          && calls[k].arguments == deltas[k].Fragment()
          && calls[k].name == if deltas[k].Name().Some? then deltas[k].Name().value else ""
  {
    hide Step;
    if deltas != [] {
      var front, last := deltas[..|deltas| - 1], deltas[|deltas| - 1];
      assert deltas == front + [last];
      assert last in deltas;
      RunBareSeparate(front);
      StepSeparates(Run(front, true), last);
    }
  }

  lemma StepSeparates(state: State, delta: Delta)
    requires delta.index.None? && delta.id.None?
    ensures
      var after := Step(state, delta, true).calls;
      && |after| == |state.calls| + 1 && state.calls <= after
      && after[|state.calls|].arguments == delta.Fragment()
      && after[|state.calls|].name == if delta.Name().Some? then delta.Name().value else ""
  {
  }

  /** ... and everything is merged into the first entry where it is not, which keeps the last name and gets a generated identifier. */
  lemma {:induction false} RunBareMerged(deltas: seq<Delta>)
    requires Bare(deltas) && deltas != []
    ensures
      var calls := Run(deltas, false).calls;
      && |calls| == 1 && calls[0].arguments == AllFragments(deltas) && calls[0].name == LastName(deltas)
      && calls[0].id == (if EverHasContent(deltas) then GeneratedId(1) else "")
      && Run(deltas, false).used == if EverHasContent(deltas) then 1 else 0
  {
    hide Step, GeneratedId, AllFragments, LastName;
    var front, last := deltas[..|deltas| - 1], deltas[|deltas| - 1];
    assert deltas == front + [last];
    assert last in deltas;
    if front != [] {
      RunBareMerged(front);
    }
    GeneratedIsNotEmpty(1);
    StepMerges(Run(front, false), last);
    MoreContent(front, last);
  }

  lemma MoreContent(front: seq<Delta>, last: Delta)
    ensures
      var deltas := front + [last];
      && AllFragments(deltas) == AllFragments(front) + last.Fragment()
      && LastName(deltas) == (if last.Name().Some? then last.Name().value else LastName(front))
    ensures AllFragments([]) == "" && LastName([]) == ""
  {
    assert (front + [last])[..|front|] == front;
  }

  lemma GeneratedIsNotEmpty(index: nat)
    ensures GeneratedId(index) != ""
  {
  }

  lemma StepMerges(state: State, delta: Delta)
    requires delta.index.None? && delta.id.None? && |state.calls| <= 1
    ensures
      var before := if state.calls == [] then BLANK else state.calls[0];
      var after := Step(state, delta, false);
      && |after.calls| == 1
      && after.calls[0].arguments == before.arguments + delta.Fragment()
      && after.calls[0].name == (if delta.Name().Some? then delta.Name().value else before.name)
      && var generates := before.id == "" && (after.calls[0].name != "" || after.calls[0].arguments != "");
         && after.calls[0].id == (if generates then GeneratedId(state.used + 1) else before.id)
         && after.used == state.used + if generates then 1 else 0
  {
    hide GeneratedId;
  }

  function LastName(deltas: seq<Delta>): string {
    if deltas == [] then ""
    else if deltas[|deltas| - 1].Name().Some? then deltas[|deltas| - 1].Name().value
    else LastName(deltas[..|deltas| - 1])
  }

  /** At some point there was a name or a fragment. */
  predicate EverHasContent(deltas: seq<Delta>) {
    deltas != [] &&
    (LastName(deltas) != "" || AllFragments(deltas) != "" || EverHasContent(deltas[..|deltas| - 1]))
  }

  function AllFragments(deltas: seq<Delta>): string {
    if deltas == [] then "" else AllFragments(deltas[..|deltas| - 1]) + deltas[|deltas| - 1].Fragment()
  }

  // ----- What completion reports -----

  predicate IsReported(call: Call) {
    call.id != "" && InternalToolName(call.name).Some?
  }

  function Reported(calls: seq<Call>): seq<nat> {
    if calls == [] then []
    else Reported(calls[..|calls| - 1]) + if IsReported(calls[|calls| - 1]) then [|calls| - 1] else []
  }

  /** The reported positions are exactly the non-padding, non-reserved ones, in order. */
  lemma {:induction false} ReportedPositions(calls: seq<Call>)
    ensures forall i: nat :: i in Reported(calls) <==> i < |calls| && IsReported(calls[i])
    ensures forall j, k | 0 <= j < k < |Reported(calls)| :: Reported(calls)[j] < Reported(calls)[k]
  {
    if calls != [] {
      var front := calls[..|calls| - 1];
      ReportedPositions(front);
      forall k | 0 <= k < |Reported(front)|
        ensures Reported(front)[k] < |front|
      {
        assert Reported(front)[k] in Reported(front);
      }
    }
  }

  lemma {:induction false} CompletedAtPositions(reader: JsonReader, calls: seq<Call>)
    ensures |Completed(reader, calls)| == |Reported(calls)|
    ensures forall k | 0 <= k < |Reported(calls)| ::
              Reported(calls)[k] < |calls| &&
              CompletedCall(reader, calls[Reported(calls)[k]]) == [Completed(reader, calls)[k]]
  {
    hide InternalToolName;
    if calls != [] {
      CompletedAtPositions(reader, calls[..|calls| - 1]);
    }
  }

  /** An entry is identified by the last identifier sent for it, unless that is empty and there is, or comes, content. */
  predicate IsIdentified(deltas: seq<Delta>, i: nat) {
    if deltas == [] then false
    else
      var front, last := deltas[..|deltas| - 1], deltas[|deltas| - 1];
      if last.index != Some(i) then IsIdentified(front, i)
      else
        || LastNameAt(deltas, i) != "" || FragmentsAt(deltas, i) != ""
        || if last.id.Some? then last.id.value != "" else IsIdentified(front, i)
  }

  lemma IdentifiedStep(state: State, delta: Delta, missingIndexStartsNewCall: bool)
    requires delta.index.Some?
    ensures
      var index, after := delta.index.value, Step(state, delta, missingIndexStartsNewCall).calls;
      && index < |after|
      && (after[index].id != "" <==>
            || after[index].HasContent()
            || if delta.id.Some? then delta.id.value != "" else index < |state.calls| && state.calls[index].id != "")
  {
  }

  /** With explicit indexes, whether an entry has an identifier depends on its own deltas alone. */
  lemma {:induction false} RunIdentifiesByIndex(deltas: seq<Delta>, missingIndexStartsNewCall: bool, i: nat)
    requires Indexed(deltas)
    ensures
      var calls := Run(deltas, missingIndexStartsNewCall).calls;
      (i < |calls| && calls[i].id != "") <==> IsIdentified(deltas, i)
  {
    hide Step;
    if deltas != [] {
      var front, last := deltas[..|deltas| - 1], deltas[|deltas| - 1];
      assert deltas == front + [last];
      assert last in deltas;
      RunIdentifiesByIndex(front, missingIndexStartsNewCall, i);
      StepAt(Run(front, missingIndexStartsNewCall), last, missingIndexStartsNewCall);
      IdentifiedStep(Run(front, missingIndexStartsNewCall), last, missingIndexStartsNewCall);
      if last.index == Some(i) {
        RunByIndex(deltas, missingIndexStartsNewCall, i);
      }
    }
  }

  lemma {:induction false} UnnamedIsNotIdentified(deltas: seq<Delta>, i: nat)
    requires forall d | d in deltas :: d.index != Some(i)
    ensures !IsIdentified(deltas, i)
  {
    if deltas != [] {
      assert deltas[|deltas| - 1] in deltas;
      UnnamedIsNotIdentified(deltas[..|deltas| - 1], i);
    }
  }

  /**
    Main result for completion: after explicitly indexed deltas an entry is emitted
    exactly when it is identified and its last name is not reserved, in index order, with
    its own name and joined arguments; an entry that only pads the list is never emitted.
   */
  lemma CompletionByIndex(reader: JsonReader, deltas: seq<Delta>, missingIndexStartsNewCall: bool)
    requires Indexed(deltas)
    ensures
      var calls := Run(deltas, missingIndexStartsNewCall).calls;
      var positions, events := Reported(calls), Completed(reader, calls);
      && |events| == |positions|
      && (forall j, k | 0 <= j < k < |positions| :: positions[j] < positions[k])
      && (forall i: nat :: i in positions <==>
            IsIdentified(deltas, i) && InternalToolName(LastNameAt(deltas, i)).Some?)
      && (forall i: nat | forall d | d in deltas :: d.index != Some(i) :: i !in positions)
      && (forall k | 0 <= k < |positions| ::
            && positions[k] < |calls|
            && var name := InternalToolName(LastNameAt(deltas, positions[k]));
               name.Some? && events[k] == ToolCall(calls[positions[k]].id, name.value,
                                                    ArgumentValue(reader, FragmentsAt(deltas, positions[k]))))
      && (forall i: nat | i < |calls| && i !in positions ::
            || (LastNameAt(deltas, i) == "" && FragmentsAt(deltas, i) == "")
            || InternalToolName(LastNameAt(deltas, i)) == None)
  {
    hide Completed, InternalToolName, ArgumentValue, Run;
    var calls := Run(deltas, missingIndexStartsNewCall).calls;
    var positions := Reported(calls);
    ReportedPositions(calls);
    CompletedAtPositions(reader, calls);
    RunIdentifies(deltas, missingIndexStartsNewCall);
    forall i: nat | i < |calls|
      ensures calls[i].arguments == FragmentsAt(deltas, i) && calls[i].name == LastNameAt(deltas, i)
    {
      RunByIndex(deltas, missingIndexStartsNewCall, i);
    }
    forall i: nat
      ensures i in positions <==> IsIdentified(deltas, i) && InternalToolName(LastNameAt(deltas, i)).Some?
    {
      RunIdentifiesByIndex(deltas, missingIndexStartsNewCall, i);
    }
    forall i: nat | forall d | d in deltas :: d.index != Some(i)
      ensures i !in positions
    {
      UnnamedIsNotIdentified(deltas, i);
    }
    forall k | 0 <= k < |positions|
      ensures IsReported(calls[positions[k]])
    {
      assert positions[k] in positions;
    }
  }

  /** An identifier alone is enough: a call without name and arguments is emitted. */
  lemma NamelessCallIsEmitted(reader: JsonReader, id: string, missingIndexStartsNewCall: bool)
    requires id != ""
    ensures
      Completed(reader, Run([Delta(Some(0), Some(id), None)], missingIndexStartsNewCall).calls)
      == [ToolCall(id, "", ArgumentValue(reader, ""))]
  {
    var delta := Delta(Some(0), Some(id), None);
    assert [delta][..0] == [];
    assert Run([delta], missingIndexStartsNewCall).calls == [Call(id, "", "")];
  }

  // ----- Names and arguments as they are announced -----

  /** Which names the provider's tools stand for, and which calls are its own. */
  lemma AnnouncedNames(name: string)
    ensures InternalToolName("quine_search") == Some("web_search")
    ensures InternalToolName("quine_open_url") == Some("web_open")
    ensures InternalToolName(name) == None <==> name == "web_search" || name == "web_search_preview"
    ensures name !in {"quine_search", "quine_open_url", "web_search", "web_search_preview"} ==> InternalToolName(name) == Some(name)
    ensures ProviderToolName("web_search") == "quine_search" && ProviderToolName("web_open") == "quine_open_url"
    ensures name !in {"web_search", "web_open"} ==> ProviderToolName(name) == name
  {
    assert |"web_search"| != |"web_search_preview"| && |"quine_search"| != |"quine_open_url"|;
  }

  /** Main result: a call that was last named "web_search" or "web_search_preview" is the provider's own and is dropped. */
  lemma ReservedIsDropped(reader: JsonReader, deltas: seq<Delta>, missingIndexStartsNewCall: bool, i: nat)
    requires Indexed(deltas) && LastNameAt(deltas, i) in {"web_search", "web_search_preview"}
    ensures i !in Reported(Run(deltas, missingIndexStartsNewCall).calls)
  {
    hide Completed, Run, Reported;
    AnnouncedNames(LastNameAt(deltas, i));
    CompletionByIndex(reader, deltas, missingIndexStartsNewCall);
  }

  /** Arguments are what the reader makes of them, or an empty object. */
  lemma ArgumentsAre(reader: JsonReader, arguments: string)
    ensures reader(arguments) == None ==> ArgumentValue(reader, arguments) == JsonObject(map[])
    ensures reader(arguments).Some? ==> ArgumentValue(reader, arguments) == reader(arguments).value
  {
  }

  /** A generated identifier is the prefix and the number, and no two are the same. */
  lemma GeneratedIdsDiffer(m: nat, n: nat)
    ensures GeneratedId(m) == "openai-tool-call-" + Decimal(m)
    ensures m != n ==> GeneratedId(m) != GeneratedId(n)
  {
    var head := "openai-tool-call-";
    assert GeneratedId(m)[|head|..] == Decimal(m) && GeneratedId(n)[|head|..] == Decimal(n);
    if GeneratedId(m) == GeneratedId(n) {
      DecimalInjective(m, n);
    }
  }

  /** Every identifier is missing or one of the generated ones, and no two entries share one. */
  ghost predicate AreGenerated(calls: seq<Call>, used: nat) {
    && (forall i | 0 <= i < |calls| && calls[i].id != "" :: IsGenerated(calls[i].id, used))
    && (forall i, j | 0 <= i < j < |calls| && calls[i].id != "" :: calls[i].id != calls[j].id)
  }

  ghost predicate IsGenerated(id: string, used: nat) {
    exists n: nat :: 1 <= n <= used && id == GeneratedId(n)
  }

  lemma StepGenerates(state: State, delta: Delta, missingIndexStartsNewCall: bool)
    requires delta.id == None && AreGenerated(state.calls, state.used)
    ensures
      var next := Step(state, delta, missingIndexStartsNewCall);
      && AreGenerated(next.calls, next.used)
      && state.used <= next.used <= state.used + 1
  {
    hide TargetIndex, GeneratedId, AreGenerated, Grown;
    var index := TargetIndex(state.calls, delta, missingIndexStartsNewCall);
    GrownAreGenerated(state.calls, index + 1, state.used);
    GeneratedIsNotEmpty(state.used + 1);
    var grown := Grown(state.calls, index + 1);
    ReplacedAreGenerated(grown, index, WithId(Extended(grown[index], delta), state.used), state.used);
  }

  lemma GrownAreGenerated(calls: seq<Call>, len: nat, used: nat)
    requires AreGenerated(calls, used)
    ensures AreGenerated(Grown(calls, len), used)
  {
    hide GeneratedId, IsGenerated;
    var grown := Grown(calls, len);
    assert forall i | 0 <= i < |grown| && grown[i].id != "" :: i < |calls| && grown[i] == calls[i];
  }

  lemma ReplacedAreGenerated(calls: seq<Call>, index: nat, call: Call, used: nat)
    requires AreGenerated(calls, used) && index < |calls|
    requires call.id == calls[index].id || call.id == GeneratedId(used + 1)
    ensures AreGenerated(calls[index := call], if call.id == calls[index].id then used else used + 1)
  {
    hide GeneratedId;
    if call.id != calls[index].id {
      forall i | 0 <= i < |calls| && calls[i].id != ""
        ensures IsGenerated(calls[i].id, used + 1) && calls[i].id != GeneratedId(used + 1)
      {
        var n: nat :| 1 <= n <= used && calls[i].id == GeneratedId(n);
        GeneratedIdsDiffer(n, used + 1);
      }
      assert IsGenerated(GeneratedId(used + 1), used + 1);
    }
  }

  /** Main result: where the provider sends no identifiers, each call gets its own generated one. */
  lemma {:induction false} RunGenerates(deltas: seq<Delta>, missingIndexStartsNewCall: bool)
    requires forall d | d in deltas :: d.id == None
    ensures AreGenerated(Run(deltas, missingIndexStartsNewCall).calls, Run(deltas, missingIndexStartsNewCall).used)
  {
    hide Step, AreGenerated;
    if deltas == [] {
      NothingGenerated();
    } else {
      var front, last := deltas[..|deltas| - 1], deltas[|deltas| - 1];
      assert last in deltas && forall d | d in front :: d in deltas;
      RunGenerates(front, missingIndexStartsNewCall);
      StepGenerates(Run(front, missingIndexStartsNewCall), last, missingIndexStartsNewCall);
    }
  }

  lemma NothingGenerated()
    ensures AreGenerated([], 0)
  {
  }
}
