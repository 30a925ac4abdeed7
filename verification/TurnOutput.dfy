/**
  What a client gets for its turn, said without following the loop: from the turn's own
  events alone, whatever other sessions and turns are interleaved with them.
 */
module TurnOutputs {
  import opened Wrappers
  import opened Strings
  import opened SessionTrees
  import opened TurnTagging
  import opened TurnCollecting
  import opened TurnCorrelation

  // ----- The parts of the answer -----

  /** The finished texts that are not blank, in order. */
  function Texts(events: seq<CoreOutput>): seq<string> {
    if events == [] then []
    else
      var last := events[|events| - 1];
      Texts(events[..|events| - 1])
      + if last.TextComplete? && Trim(last.fullText) != "" then [last.fullText] else []
  }

  /** What has been streamed since the last finished text. */
  function Unfinished(events: seq<CoreOutput>): string {
    if events == [] then ""
    else
      var last := events[|events| - 1];
      if last.TextComplete? then ""
      else Unfinished(events[..|events| - 1]) + if last.StreamDelta? then last.delta else ""
  }

  function Calls(events: seq<CoreOutput>): seq<ToolCallRecord> {
    if events == [] then []
    else
      var last := events[|events| - 1];
      Calls(events[..|events| - 1])
      + if last.ToolRequest? then [ToolCallRecord(last.toolName, last.toolUseId)] else []
  }

  /** What the client shows while it waits: the first streamed text, and each tool call and question. */
  function ProgressOf(events: seq<CoreOutput>): seq<Progress> {
    if events == [] then []
    else
      var front, last := events[..|events| - 1], events[|events| - 1];
      ProgressOf(front)
      + match last
        case StreamDelta(_, _) => if Streams(front) then [] else [Streaming]
        case ToolRequest(_, _, toolName) => [ToolRequested(toolName)]
        case InteractionNeeded(_, _, _, _, _, _) => [InteractionSeen]
        case _ => []
  }

  predicate Streams(events: seq<CoreOutput>) {
    exists i :: 0 <= i < |events| && events[i].StreamDelta?
  }

  function Lines(texts: seq<string>): (r: string)
    ensures texts == [] ==> r == ""
  {
    if texts == [] then ""
    else if |texts| == 1 then texts[0]
    else Lines(texts[..|texts| - 1]) + "\n" + texts[|texts| - 1]
  }

  function ResponseOf(events: seq<CoreOutput>): string {
    if Texts(events) != [] then Lines(Texts(events)) else Unfinished(events)
  }

  /** An event that neither starts nor ends the turn, nor ends the client's wait. */
  predicate GoesOn(request: Request, event: CoreOutput) {
    && Concerns(event, request.sessionId)
    && !event.TurnStarted? && !event.TurnComplete? && !event.SessionError?
    && (event.InteractionNeeded? ==> request.autoApprove && IsPermission(event))
  }

  // ----- Following the loop -----

  /** The answer is that of the first list; what has been shown is that of the second, longer one. */
  ghost predicate Summarises(c: Collected, answer: seq<CoreOutput>, all: seq<CoreOutput>) {
    && c.collectingTurn
    && c.completedText == Lines(Texts(answer))
    && c.deltaBuffer == Unfinished(answer)
    && c.toolCalls == Calls(answer)
    && c.progress == ProgressOf(all) && (c.sawStreamDelta <==> Streams(all))
  }

  lemma {:induction false} CollectAppend(request: Request, c: Collected, a: seq<Notification>, b: seq<Notification>)
    ensures CollectFrom(request, c, a + b)
         == if CollectFrom(request, c, a).Waiting? then CollectFrom(request, CollectFrom(request, c, a).collected, b)
            else CollectFrom(request, c, a)
    decreases |a|
  {
    hide Received;
    if a == [] {
      assert a + b == b;
    } else {
      assert (a + b)[1..] == a[1..] + b;
      var next := Received(request, c, a[0]);
      if next.Waiting? {
        CollectAppend(request, next.collected, a[1..], b);
      }
    }
  }

  lemma {:induction false} TextsAreNotEmpty(events: seq<CoreOutput>)
    ensures forall t | t in Texts(events) :: t != ""
  {
    if events != [] {
      TextsAreNotEmpty(events[..|events| - 1]);
    }
  }

  lemma LinesOfSome(texts: seq<string>)
    requires texts != [] && forall t | t in texts :: t != ""
    ensures Lines(texts) != ""
  {
    assert texts[0] in texts;
  }

  /** What one more event adds to the parts of the answer. */
  lemma PartsStep(before: seq<CoreOutput>, event: CoreOutput)
    ensures Texts(before + [event])
         == Texts(before) + if event.TextComplete? && Trim(event.fullText) != "" then [event.fullText] else []
    ensures Unfinished(before + [event])
         == if event.TextComplete? then "" else Unfinished(before) + if event.StreamDelta? then event.delta else ""
    ensures Calls(before + [event])
         == Calls(before) + if event.ToolRequest? then [ToolCallRecord(event.toolName, event.toolUseId)] else []
    ensures Streams(before + [event]) <==> Streams(before) || event.StreamDelta?
    ensures ProgressOf(before + [event])
         == ProgressOf(before)
            + if event.StreamDelta? then (if Streams(before) then [] else [Streaming])
              else if event.ToolRequest? then [ToolRequested(event.toolName)]
              else if event.InteractionNeeded? then [InteractionSeen]
              else []
  {
    hide Trim;
    var events := before + [event];
    assert events[..|events| - 1] == before;
    if i :| 0 <= i < |before| && before[i].StreamDelta? {
      assert events[i].StreamDelta?;
    }
    assert event.StreamDelta? ==> events[|before|].StreamDelta?;
  }

  lemma LinesStep(texts: seq<string>, text: string)
    requires forall t | t in texts :: t != ""
    ensures Lines(texts + [text]) == if Lines(texts) == "" then text else Lines(texts) + "\n" + text
  {
    var more := texts + [text];
    assert more[..|more| - 1] == texts;
    if texts != [] {
      LinesOfSome(texts);
    }
  }

  lemma SummaryStep(request: Request, c: Collected, answer: seq<CoreOutput>, all: seq<CoreOutput>, event: CoreOutput)
    requires Summarises(c, answer, all) && GoesOn(request, event)
    ensures var n := Notification(event, request.expectedTurnId);
            && Received(request, c, n).Waiting?
            && Summarises(Received(request, c, n).collected, answer + [event], all + [event])
  {
    hide Trim, Texts, Unfinished, Calls, Lines, ProgressOf, Streams;
    PartsStep(answer, event);
    PartsStep(all, event);
    TextsAreNotEmpty(answer);
    if event.TextComplete? {
      LinesStep(Texts(answer), event.fullText);
    }
    assert Texts(answer) + [] == Texts(answer) && Calls(answer) + [] == Calls(answer);
    assert Unfinished(answer) + "" == Unfinished(answer) && ProgressOf(all) + [] == ProgressOf(all);
  }

  lemma {:induction false} CollectsSummary(request: Request, c: Collected, events: seq<CoreOutput>, turnId: string)
    returns (reached: Collected)
    requires request.expectedTurnId == Some(turnId) && Summarises(c, [], [])
    requires forall e | e in events :: GoesOn(request, e)
    ensures CollectFrom(request, c, Stamped(events, turnId)) == Waiting(reached) && Summarises(reached, events, events)
  {
    hide Received, Summarises, GoesOn;
    if events == [] {
      return c;
    }
    var before, last := events[..|events| - 1], events[|events| - 1];
    assert events == before + [last];
    reached := CollectsSummary(request, c, before, turnId);
    var n := Notification(last, Some(turnId));
    assert Stamped(events, turnId) == Stamped(before, turnId) + [n];
    CollectAppend(request, c, Stamped(before, turnId), [n]);
    SummaryStep(request, reached, before, before, last);
    assert [n] == [n] + [];
    CollectOne(request, reached, n, []);
    reached := Received(request, reached, n).collected;
  }

  /**
    Main result: the answer is the turn's finished texts, one per line, or else what was
    streamed; its tool calls in order; and the figures of its end.
   */
  lemma ClientGetsItsTurn(events: seq<CoreOutput>, session: SessionId, turnId: string, autoApprove: bool,
                          within: seq<CoreOutput>, durationUs: nat, usage: Option<Usage>)
    requires UniqueTurn(events, session, turnId)
    requires SeenEvents(events, session, turnId)
          == [TurnStarted(session, turnId)] + within + [TurnComplete(session, durationUs, usage)]
    requires forall e | e in within :: GoesOn(RequestFor(session, turnId, autoApprove), e)
    ensures
      var outcome := Collect(RequestFor(session, turnId, autoApprove), TagAll(map[], events));
      && outcome.Finished?
      && outcome.output == Output(session, ResponseOf(within), Calls(within), Some(durationUs), usage, None)
      && outcome.progress == ProgressOf(within) + [TurnSeen]
  {
    hide Received, GoesOn, UniqueTurn;
    var request := RequestFor(session, turnId, autoApprove);
    var start := Notification(TurnStarted(session, turnId), Some(turnId));
    var end := Notification(TurnComplete(session, durationUs, usage), Some(turnId));
    TaggedCollectionIsSeen(events, session, turnId, autoApprove);
    assert Stamped(SeenEvents(events, session, turnId), turnId) == [start] + (Stamped(within, turnId) + [end]);
    var c := Initially(request);
    StartClears(request, c, start);
    CollectOne(request, c, start, Stamped(within, turnId) + [end]);
    var reached := CollectsSummary(request, c.Cleared(), within, turnId);
    CollectAppend(request, c.Cleared(), Stamped(within, turnId), [end]);
    assert [end] == [end] + [];
    CompletionEnds(request, reached, end, []);
    CompletionAnswers(request, reached, within, within, end);
  }

  /** An event of the turn that ends the wait before the turn is complete. */
  predicate StopsEarly(request: Request, event: CoreOutput) {
    && Concerns(event, request.sessionId)
    && (event.SessionError? || (event.InteractionNeeded? && !(request.autoApprove && IsPermission(event))))
  }

  /** The early end: an error as it is, or the question with what has been collected until then. */
  ghost predicate AnswersEarly(request: Request, within: seq<CoreOutput>, stop: CoreOutput, outcome: Outcome) {
    if stop.SessionError? then outcome == Outcome.Failed(stop.error, ProgressOf(within))
    else
      && stop.InteractionNeeded? && outcome.Finished?
      && outcome.progress == ProgressOf(within) + [InteractionSeen]
      && outcome.output == Output(
           request.sessionId, ResponseOf(within), Calls(within), None, None,
           Some(Interaction(stop.prompt, stop.sourceLabel, request.expectedTurnId, stop.kind, stop.options,
                            stop.allowFreeform, ResponseOf(within), Calls(within))))
  }

  /** Main result: an error or a question in the turn ends the wait at once, whatever comes behind it. */
  lemma ClientIsStopped(events: seq<CoreOutput>, session: SessionId, turnId: string, autoApprove: bool,
                        within: seq<CoreOutput>, stop: CoreOutput, rest: seq<CoreOutput>)
    requires UniqueTurn(events, session, turnId)
    requires SeenEvents(events, session, turnId) == [TurnStarted(session, turnId)] + within + [stop] + rest
    requires forall e | e in within :: GoesOn(RequestFor(session, turnId, autoApprove), e)
    requires StopsEarly(RequestFor(session, turnId, autoApprove), stop)
    ensures
      var request := RequestFor(session, turnId, autoApprove);
      AnswersEarly(request, within, stop, Collect(request, TagAll(map[], events)))
  {
    hide Received, GoesOn, UniqueTurn, StopsEarly, AnswersEarly;
    var request := RequestFor(session, turnId, autoApprove);
    var start, end := Notification(TurnStarted(session, turnId), Some(turnId)), Notification(stop, Some(turnId));
    TaggedCollectionIsSeen(events, session, turnId, autoApprove);
    assert Stamped(SeenEvents(events, session, turnId), turnId)
        == [start] + (Stamped(within, turnId) + ([end] + Stamped(rest, turnId)));
    var c := Initially(request);
    StartClears(request, c, start);
    CollectOne(request, c, start, Stamped(within, turnId) + ([end] + Stamped(rest, turnId)));
    var reached := CollectsSummary(request, c.Cleared(), within, turnId);
    CollectAppend(request, c.Cleared(), Stamped(within, turnId), [end] + Stamped(rest, turnId));
    CollectOne(request, reached, end, Stamped(rest, turnId));
    SummaryStops(request, reached, within, end);
  }

  lemma SummaryStops(request: Request, c: Collected, within: seq<CoreOutput>, end: Notification)
    requires Summarises(c, within, within) && end.turnId == request.expectedTurnId && StopsEarly(request, end.event)
    ensures !Received(request, c, end).Waiting? && AnswersEarly(request, within, end.event, Received(request, c, end))
  {
    hide Trim, Texts, Unfinished, Calls, Lines, ProgressOf, Streams;
    TextsAreNotEmpty(within);
    if Texts(within) != [] {
      LinesOfSome(Texts(within));
    }
  }

  /** Main result: the answer when a turn is interleaved with anything the other sessions do. */
  lemma InterleavedTurnIsAnswered(before: seq<CoreOutput>, within: seq<CoreOutput>, after: seq<CoreOutput>,
                                  session: SessionId, turnId: string, autoApprove: bool, durationUs: nat, usage: Option<Usage>)
    requires
      var start, end := TurnStarted(session, turnId), TurnComplete(session, durationUs, usage);
      UniqueTurn(before + ([start] + (within + ([end] + after))), session, turnId)
    requires forall i | 0 <= i < |before| :: before[i] != TurnStarted(session, turnId)
    requires StaysInTurn(within, session)
    requires forall e | e in Own(within, session) :: GoesOn(RequestFor(session, turnId, autoApprove), e)
    ensures
      var start, end := TurnStarted(session, turnId), TurnComplete(session, durationUs, usage);
      var events := before + ([start] + (within + ([end] + after)));
      var outcome := Collect(RequestFor(session, turnId, autoApprove), TagAll(map[], events));
      var own := Own(within, session);
      && outcome.Finished?
      && outcome.output == Output(session, ResponseOf(own), Calls(own), Some(durationUs), usage, None)
  {
    hide GoesOn, UniqueTurn, TagAll, StaysInTurn, Own, SeenEvents, TurnEvents, Collect;
    var start, end := TurnStarted(session, turnId), TurnComplete(session, durationUs, usage);
    TurnIsWhole(before, within, after, session, turnId, durationUs, usage);
    ClientGetsItsTurn(before + ([start] + (within + ([end] + after))), session, turnId, autoApprove, Own(within, session),
                      durationUs, usage);
  }

  /** A permission question is one whose label starts with "permission:"; no other event is one. */
  lemma PermissionIff(event: CoreOutput)
    ensures IsPermission(event) <==>
              event.InteractionNeeded? && exists rest: string :: event.sourceLabel == Some("permission:" + rest)
  {
    if event.InteractionNeeded? && event.sourceLabel.Some? {
      var given := event.sourceLabel.value;
      if IsPermission(event) {
        assert given == "permission:" + given[|"permission:"|..];
      }
      if rest: string :| event.sourceLabel == Some("permission:" + rest) {
        assert given[0..0 + |"permission:"|] == "permission:";
      }
    }
  }

  // ----- A client that was told no turn id -----

  function Events(notifications: seq<Notification>): seq<CoreOutput> {
    seq(|notifications|, i requires 0 <= i < |notifications| => notifications[i].event)
  }

  /** What the session has reported since it last started a turn. */
  function Latest(events: seq<CoreOutput>, session: SessionId): seq<CoreOutput> {
    if events == [] then []
    else
      var front, last := events[..|events| - 1], events[|events| - 1];
      if IsRestart(last, session) then []
      else Latest(front, session) + if Concerns(last, session) then [last] else []
  }

  /** Something of another session. */
  predicate IsOthers(event: CoreOutput, session: SessionId) {
    !event.ChildSpawned? && !event.ChildExited? && !event.CheckpointRequested? && event.sessionId != session
  }

  /** Another session, or a new turn, or something that neither ends nor interrupts the wait. */
  predicate KeepsWaiting(request: Request, event: CoreOutput) {
    IsOthers(event, request.sessionId) || IsRestart(event, request.sessionId) || GoesOn(request, event)
  }

  lemma OthersAreSkipped(request: Request, c: Collected, n: Notification)
    requires IsOthers(n.event, request.sessionId)
    ensures Received(request, c, n) == Waiting(c)
  {
  }

  lemma TagIsIgnored(request: Request, c: Collected, n: Notification)
    requires request.expectedTurnId == None
    ensures Received(request, c, n) == Received(request, c, Notification(n.event, None))
  {
  }

  lemma RestartClears(request: Request, c: Collected, n: Notification, answer: seq<CoreOutput>, all: seq<CoreOutput>)
    requires request.expectedTurnId == None && IsRestart(n.event, request.sessionId) && Summarises(c, answer, all)
    ensures Received(request, c, n).Waiting? && Summarises(Received(request, c, n).collected, [], all)
  {
    hide ProgressOf, Streams;
  }

  /** What is shown of all that the session reports. */
  function Shown(events: seq<CoreOutput>, session: SessionId): seq<CoreOutput> {
    if events == [] then []
    else
      var last := events[|events| - 1];
      Shown(events[..|events| - 1], session) + if Concerns(last, session) && !last.TurnStarted? then [last] else []
  }

  /** Without an expected turn, tags make no difference, and every new turn of the session starts afresh. */
  lemma {:induction false} CollectsAnyTag(request: Request, c: Collected, notifications: seq<Notification>)
    returns (reached: Collected)
    requires request.expectedTurnId == None && Summarises(c, [], [])
    requires forall e | e in Events(notifications) :: KeepsWaiting(request, e)
    ensures CollectFrom(request, c, notifications) == Waiting(reached)
    ensures
      var events := Events(notifications);
      Summarises(reached, Latest(events, request.sessionId), Shown(events, request.sessionId))
  {
    hide Received, Summarises, GoesOn;
    if notifications == [] {
      NothingCollected(request, c);
      return c;
    }
    var before, last := notifications[..|notifications| - 1], notifications[|notifications| - 1];
    assert notifications == before + [last];
    var events := Events(before);
    assert Events(notifications) == events + [last.event];
    assert Events(notifications)[..|events|] == events;
    assert forall e | e in events :: e in Events(notifications);
    assert last.event in Events(notifications);
    var c' := CollectsAnyTag(request, c, before);
    CollectAppend(request, c, before, [last]);
    assert [last] == [last] + [];
    CollectOne(request, c', last, []);
    var answer, all := Latest(events, request.sessionId), Shown(events, request.sessionId);
    assert answer + [] == answer && all + [] == all;
    if IsOthers(last.event, request.sessionId) {
      OthersAreSkipped(request, c', last);
    } else if IsRestart(last.event, request.sessionId) {
      RestartClears(request, c', last, answer, all);
    } else {
      SummaryStep(request, c', answer, all, last.event);
      TagIsIgnored(request, c', last);
      GoesOnIsOwn(request, last.event);
    }
    reached := Received(request, c', last).collected;
    NothingCollected(request, reached);
  }

  lemma GoesOnIsOwn(request: Request, event: CoreOutput)
    requires GoesOn(request, event)
    ensures Concerns(event, request.sessionId) && !event.TurnStarted? && !IsRestart(event, request.sessionId)
  {
  }

  /**
    Main result: such a client takes the first completion of its session, with what the
    session has reported since its last start, whatever other sessions do.
   */
  lemma AnyTurnIsAnswered(session: SessionId, autoApprove: bool, within: seq<Notification>, end: Notification,
                          after: seq<Notification>)
    requires forall e | e in Events(within) :: KeepsWaiting(Request(session, None, autoApprove), e)
    requires IsCompletion(end.event, session)
    ensures
      var outcome := Collect(Request(session, None, autoApprove), within + ([end] + after));
      var own := Latest(Events(within), session);
      && outcome.Finished?
      && outcome.output == Output(session, ResponseOf(own), Calls(own), Some(end.event.durationUs), end.event.usage, None)
  {
    hide Received, KeepsWaiting;
    var request := Request(session, None, autoApprove);
    var c := Initially(request);
    var reached := CollectsAnyTag(request, c, within);
    CollectAppend(request, c, within, [end] + after);
    CollectOne(request, reached, end, after);
    TagIsIgnored(request, reached, end);
    CompletionAnswers(request, reached, Latest(Events(within), session), Shown(Events(within), session),
                      Notification(end.event, None));
  }

  lemma CompletionAnswers(request: Request, c: Collected, answer: seq<CoreOutput>, all: seq<CoreOutput>, end: Notification)
    requires Summarises(c, answer, all) && end.turnId == request.expectedTurnId && IsCompletion(end.event, request.sessionId)
    ensures Received(request, c, end).Finished?
    ensures Received(request, c, end).output
         == Output(request.sessionId, ResponseOf(answer), Calls(answer), Some(end.event.durationUs), end.event.usage, None)
    ensures Received(request, c, end).progress == ProgressOf(all) + [TurnSeen]
  {
    hide Trim, Texts, Unfinished, Calls, Lines, ProgressOf, Streams;
    TextsAreNotEmpty(answer);
    if Texts(answer) != [] {
      LinesOfSome(Texts(answer));
    }
  }

  // ----- When the client gets an answer -----

  predicate EndsWait(request: Request, event: CoreOutput) {
    StopsEarly(request, event) || IsCompletion(event, request.sessionId)
  }

  lemma EventEndsWait(request: Request, c: Collected, n: Notification)
    requires Concerns(n.event, request.sessionId) && n.turnId == request.expectedTurnId
    ensures Received(request, c, n).Waiting? <==> !EndsWait(request, n.event)
  {
    hide WithText;
  }

  lemma {:induction false} StampedWaitsIff(request: Request, c: Collected, events: seq<CoreOutput>, turnId: string)
    requires request.expectedTurnId == Some(turnId)
    requires forall e | e in events :: Concerns(e, request.sessionId)
    ensures CollectFrom(request, c, Stamped(events, turnId)).Waiting? <==> forall e | e in events :: !EndsWait(request, e)
    decreases |events|
  {
    hide Received, EndsWait, CollectFrom;
    if events == [] {
      assert Stamped([], turnId) == [];
      NothingCollected(request, c);
    } else {
      var n, rest := Notification(events[0], Some(turnId)), events[1..];
      assert events == [events[0]] + rest && events[0] in events;
      assert Stamped(events, turnId) == [n] + Stamped(rest, turnId);
      CollectOne(request, c, n, Stamped(rest, turnId));
      EventEndsWait(request, c, n);
      if Received(request, c, n).Waiting? {
        StampedWaitsIff(request, Received(request, c, n).collected, rest, turnId);
      }
    }
  }

  lemma {:induction false} SeenIsOwn(events: seq<CoreOutput>, session: SessionId, turnId: string)
    ensures forall e | e in UntilCompleteOrRestart(events, session) :: Concerns(e, session)
    ensures forall e | e in SeenEvents(events, session, turnId) :: Concerns(e, session)
  {
    if events != [] {
      SeenIsOwn(events[1..], session, turnId);
    }
  }

  /** Main result: the client waits for ever exactly when nothing it sees of the turn ends the wait. */
  lemma ClientWaitsIff(events: seq<CoreOutput>, session: SessionId, turnId: string, autoApprove: bool)
    requires UniqueTurn(events, session, turnId)
    ensures
      var request := RequestFor(session, turnId, autoApprove);
      Collect(request, TagAll(map[], events)).Waiting?
      <==> forall e | e in SeenEvents(events, session, turnId) :: !EndsWait(request, e)
  {
    var request := RequestFor(session, turnId, autoApprove);
    TaggedCollectionIsSeen(events, session, turnId, autoApprove);
    SeenIsOwn(events, session, turnId);
    StampedWaitsIff(request, Initially(request), SeenEvents(events, session, turnId), turnId);
  }

  // ----- When another turn of the session takes the end away -----

  lemma {:induction false} SeenIsPrefix(events: seq<CoreOutput>, session: SessionId, turnId: string)
    ensures UntilCompleteOrRestart(events, session) <= UntilComplete(events, session)
    ensures SeenEvents(events, session, turnId) <= TurnEvents(events, session, turnId)
  {
    if events != [] {
      SeenIsPrefix(events[1..], session, turnId);
    }
  }

  /** Events of one session, of which only the last may complete a turn. */
  ghost predicate UpToCompletion(own: seq<CoreOutput>, session: SessionId) {
    forall i | 0 <= i < |own| :: Concerns(own[i], session) && (own[i].TurnComplete? ==> i == |own| - 1)
  }

  lemma OneMoreInFront(event: CoreOutput, own: seq<CoreOutput>, session: SessionId)
    requires Concerns(event, session) && !event.TurnComplete? && UpToCompletion(own, session)
    ensures UpToCompletion([event] + own, session)
  {
    assert forall i | 0 < i <= |own| :: ([event] + own)[i] == own[i - 1];
  }

  lemma {:induction false} CompletionIsLast(events: seq<CoreOutput>, session: SessionId, turnId: string)
    ensures UpToCompletion(UntilComplete(events, session), session)
    ensures UpToCompletion(TurnEvents(events, session, turnId), session)
  {
    if events != [] {
      var first, rest := events[0], UntilComplete(events[1..], session);
      CompletionIsLast(events[1..], session, turnId);
      if Concerns(first, session) && !first.TurnComplete? {
        OneMoreInFront(first, rest, session);
      }
    }
  }

  /**
    Main result: for a turn that completes, with no error and no open question before,
    the client never gets an answer exactly when the session starts another turn in it.
    Collecting the turn's own events always gives one, so the two agree exactly otherwise.
   */
  lemma OverlapLosesTheEnd(events: seq<CoreOutput>, session: SessionId, turnId: string, autoApprove: bool,
                           within: seq<CoreOutput>, end: CoreOutput)
    requires UniqueTurn(events, session, turnId) && IsCompletion(end, session)
    requires TurnEvents(events, session, turnId) == within + [end]
    requires forall e | e in within :: !StopsEarly(RequestFor(session, turnId, autoApprove), e)
    ensures
      var request := RequestFor(session, turnId, autoApprove);
      var tagged := Collect(request, TagAll(map[], events));
      var own := Collect(request, Stamped(TurnEvents(events, session, turnId), turnId));
      && (tagged.Waiting? <==> !NotOverlapped(events, session, turnId))
      && !own.Waiting?
      && (tagged == own <==> NotOverlapped(events, session, turnId))
  {
    hide StopsEarly, CollectFrom, Received, UniqueTurn, NotOverlapped;
    var request := RequestFor(session, turnId, autoApprove);
    var own, seen := TurnEvents(events, session, turnId), SeenEvents(events, session, turnId);
    SeenIsTurnIff(events, session, turnId);
    SeenIsPrefix(events, session, turnId);
    CompletionIsLast(events, session, turnId);
    ClientWaitsIff(events, session, turnId, autoApprove);
    StampedWaitsIff(request, Initially(request), own, turnId);
    assert own[|own| - 1] == end && end in own;
    if seen == own {
      TaggedCollectionIsTheTurn(events, session, turnId, autoApprove);
    } else {
      forall e | e in seen
        ensures !EndsWait(request, e)
      {
        var i :| 0 <= i < |seen| && seen[i] == e;
        assert own[i] == e && i < |within| && within[i] == e;
      }
    }
  }
}
