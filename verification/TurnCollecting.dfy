/**
  The client loop that waits for one turn and collects its output
  (execute_oneshot_with_progress in crates/quine-cli/src/run.rs).
 */
module TurnCollecting {
  import opened Wrappers
  import opened Strings
  import opened SessionTrees
  import opened TurnTagging

  datatype ToolCallRecord = ToolCallRecord(toolName: string, toolUseId: string)

  datatype Progress = Streaming | ToolRequested(toolName: string) | InteractionSeen | TurnSeen

  datatype Request = Request(sessionId: SessionId, expectedTurnId: Option<string>, autoApprove: bool)

  datatype Interaction = Interaction(
    prompt: string, sourceLabel: Option<string>, turnId: Option<string>, kind: string, options: seq<string>,
    allowFreeform: bool, response: string, toolCalls: seq<ToolCallRecord>)

  datatype Output = Output(
    sessionId: SessionId, response: string, toolCalls: seq<ToolCallRecord>, durationUs: Option<nat>,
    usage: Option<Usage>, interaction: Option<Interaction>)

  datatype Collected = Collected(
    completedText: string, deltaBuffer: string, toolCalls: seq<ToolCallRecord>,
    collectingTurn: bool, sawStreamDelta: bool, progress: seq<Progress>)
  {
    function Cleared(): Collected {
      this.(collectingTurn := true, completedText := "", deltaBuffer := "", toolCalls := [])
    }

    function Response(): string {
      if completedText != "" then completedText else deltaBuffer
    }

    function Report(p: Progress): Collected {
      this.(progress := progress + [p])
    }
  }

  datatype Outcome =
    | Waiting(collected: Collected)
    | Finished(output: Output, progress: seq<Progress>)
    | Failed(error: string, failedProgress: seq<Progress>)

  function Initially(request: Request): Collected {
    Collected("", "", [], request.expectedTurnId.None?, false, [])
  }

  function MatchesTurn(n: Notification, expectedTurnId: Option<string>): bool {
    expectedTurnId.None? || n.turnId == expectedTurnId
  }

  /** Notifications that name another session are skipped. */
  predicate IsForeign(n: Notification, sessionId: SessionId) {
    SessionOf(n.event).Some? && SessionOf(n.event).value != sessionId
  }

  predicate IsPermission(event: CoreOutput) {
    event.InteractionNeeded? && event.sourceLabel.Some? && StartsWith(event.sourceLabel.value, "permission:")
  }

  /** A finished text replaces the deltas that led to it; blank texts are not kept. */
  function WithText(c: Collected, fullText: string): Collected {
    c.(deltaBuffer := "",
       completedText := if Trim(fullText) == "" then c.completedText
                        else if c.completedText == "" then fullText
                        else c.completedText + "\n" + fullText)
  }

  /** An interaction ends the wait with what has been collected, unless it is approved automatically. */
  function Interacted(request: Request, c: Collected, event: CoreOutput): (outcome: Outcome)
    requires event.InteractionNeeded?
    ensures outcome.Waiting? ==> outcome.collected == c
  {
    if request.autoApprove && IsPermission(event) then Waiting(c)
    else
      Finished(Output(request.sessionId, c.Response(), c.toolCalls, None, None,
                      Some(Interaction(event.prompt, event.sourceLabel, request.expectedTurnId, event.kind, event.options,
                                       event.allowFreeform, c.Response(), c.toolCalls))),
               c.progress)
  }

  /** What the loop does with the content of a notification of its turn. */
  function Absorbed(request: Request, c: Collected, event: CoreOutput): Outcome {
    match event
    case StreamDelta(_, delta) =>
      var seen := if c.sawStreamDelta then c else c.(sawStreamDelta := true).Report(Streaming);
      Waiting(seen.(deltaBuffer := seen.deltaBuffer + delta))
    case TextComplete(_, fullText) => Waiting(WithText(c, fullText))
    case ToolRequest(_, toolUseId, toolName) =>
      Waiting(c.Report(ToolRequested(toolName)).(toolCalls := c.toolCalls + [ToolCallRecord(toolName, toolUseId)]))
    case InteractionNeeded(_, _, _, _, _, _) => Interacted(request, c.Report(InteractionSeen), event)
    case SessionError(_, error) => Outcome.Failed(error, c.progress)
    case TurnComplete(_, durationUs, usage) =>
      Finished(Output(request.sessionId, c.Response(), c.toolCalls, Some(durationUs), usage, None),
               c.Report(TurnSeen).progress)
    case _ => Waiting(c)
  }

  /** One round of the loop. */
  function Received(request: Request, c: Collected, n: Notification): Outcome {
    if IsForeign(n, request.sessionId) then Waiting(c)
    else
      var matches := MatchesTurn(n, request.expectedTurnId);
      if n.event.TurnStarted? then Waiting(if matches then c.Cleared() else c)
      else if !matches then Waiting(c)
      else Absorbed(request, if c.collectingTurn then c else c.Cleared(), n.event)
  }

  function CollectFrom(request: Request, c: Collected, notifications: seq<Notification>): Outcome
    decreases |notifications|
  {
    if notifications == [] then Waiting(c)
    else
      match Received(request, c, notifications[0])
      case Waiting(next) => CollectFrom(request, next, notifications[1..])
      case done => done
  }

  function Collect(request: Request, notifications: seq<Notification>): Outcome {
    CollectFrom(request, Initially(request), notifications)
  }

  class TurnCollector {
    const request: Request
    var completedText: string
    var deltaBuffer: string
    var toolCalls: seq<ToolCallRecord>
    var collectingTurn: bool
    var sawStreamDelta: bool
    var progress: seq<Progress>

    ghost function Abstract(): Collected
      reads this
    {
      Collected(completedText, deltaBuffer, toolCalls, collectingTurn, sawStreamDelta, progress)
    }

    constructor (request: Request)
      ensures this.request == request && Abstract() == Initially(request)
    {
      this.request := request;
      completedText, deltaBuffer, toolCalls := "", "", [];
      collectingTurn, sawStreamDelta, progress := request.expectedTurnId.None?, false, [];
    }

    method Clear()
      modifies this
      ensures Abstract() == old(Abstract()).Cleared()
    {
      collectingTurn, completedText, deltaBuffer, toolCalls := true, "", "", [];
    }

    method Interact(event: CoreOutput) returns (done: Option<Outcome>)
      requires event.InteractionNeeded?
      ensures done == match Interacted(request, Abstract(), event) case Waiting(_) => None case ended => Some(ended)
    {
      if request.autoApprove && IsPermission(event) {
        return None;
      }
      var partial := if completedText != "" then completedText else deltaBuffer;
      return Some(Finished(Output(request.sessionId, partial, toolCalls, None, None,
                                  Some(Interaction(event.prompt, event.sourceLabel, request.expectedTurnId, event.kind,
                                                   event.options, event.allowFreeform, partial, toolCalls))),
                           progress));
    }

    method CompleteText(fullText: string)
      modifies this
      ensures Abstract() == WithText(old(Abstract()), fullText)
    {
      hide Trim;
      if Trim(fullText) != "" {
        if completedText != "" {
          completedText := completedText + "\n";
        }
        completedText := completedText + fullText;
        assert old(completedText) == "" ==> completedText == fullText;
      }
      deltaBuffer := "";
    }

    /** The end of the wait, if the event ends it. */
    method Absorb(event: CoreOutput) returns (done: Option<Outcome>)
      modifies this
      ensures match Absorbed(request, old(Abstract()), event)
              case Waiting(next) => done == None && Abstract() == next
              case ended => done == Some(ended)
    {
      hide WithText, Interacted;
      match event {
        case StreamDelta(_, delta) =>
          if !sawStreamDelta {
            sawStreamDelta := true;
            progress := progress + [Streaming];
          }
          deltaBuffer := deltaBuffer + delta;
          return None;
        case TextComplete(_, fullText) =>
          CompleteText(fullText);
          return None;
        case ToolRequest(_, toolUseId, toolName) =>
          progress := progress + [ToolRequested(toolName)];
          toolCalls := toolCalls + [ToolCallRecord(toolName, toolUseId)];
          return None;
        case InteractionNeeded(_, _, _, _, _, _) =>
          progress := progress + [InteractionSeen];
          done := Interact(event);
        case SessionError(_, error) => return Some(Outcome.Failed(error, progress));
        case TurnComplete(_, durationUs, usage) =>
          var response := if completedText != "" then completedText else deltaBuffer;
          progress := progress + [TurnSeen];
          return Some(Finished(Output(request.sessionId, response, toolCalls, Some(durationUs), usage, None), progress));
        case _ => return None;
      }
    }

    method Receive(n: Notification) returns (done: Option<Outcome>)
      modifies this
      ensures match Received(request, old(Abstract()), n)
              case Waiting(next) => done == None && Abstract() == next
              case ended => done == Some(ended)
    {
      hide Absorbed;
      if IsForeign(n, request.sessionId) {
        return None;
      }
      var matchesExpectedTurn := MatchesTurn(n, request.expectedTurnId);
      if n.event.TurnStarted? {
        if matchesExpectedTurn {
          Clear();
        }
        return None;
      }
      if !matchesExpectedTurn {
        return None;
      }
      if !collectingTurn {
        Clear();
      }
      done := Absorb(n.event);
    }
  }

  method CollectTurn(request: Request, notifications: seq<Notification>) returns (outcome: Outcome)
    ensures outcome == Collect(request, notifications)
  {
    hide Received;
    var collector := new TurnCollector(request);
    for i := 0 to |notifications|
      invariant collector.request == request
      invariant CollectFrom(request, collector.Abstract(), notifications[i..]) == Collect(request, notifications)
    {
      assert notifications[i..][0] == notifications[i] && notifications[i..][1..] == notifications[i + 1..];
      var done := collector.Receive(notifications[i]);
      if done.Some? {
        return done.value;
      }
    }
    outcome := Waiting(Collected(collector.completedText, collector.deltaBuffer, collector.toolCalls,
                                 collector.collectingTurn, collector.sawStreamDelta, collector.progress));
  }
}
