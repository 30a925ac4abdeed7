/**
  Notifications for core events, tagged with the turn they belong to
  (core_output_to_notification_with_turn_tracking in crates/quine-harness/src/server.rs).
  A notification (JSON-RPC 2.0 specification, section 4.1) is the event it reports plus
  an optional turn id among its parameters.
 */
module TurnTagging {
  import opened Wrappers
  import opened SessionTrees

  datatype Usage = Usage(inputTokens: nat, outputTokens: nat)

  datatype CoreOutput =
    | ReasoningDelta(sessionId: SessionId, delta: string)
    | StreamDelta(sessionId: SessionId, delta: string)
    | TextComplete(sessionId: SessionId, fullText: string)
    | ToolRequest(sessionId: SessionId, toolUseId: string, toolName: string)
    | ToolOutput(sessionId: SessionId, toolUseId: string, toolName: string, content: string)
    | SessionStateChanged(sessionId: SessionId, state: string)
    | SessionError(sessionId: SessionId, error: string)
    | InteractionNeeded(sessionId: SessionId, prompt: string, kind: string, options: seq<string>,
                        allowFreeform: bool, sourceLabel: Option<string>)
    | PlanProgress(sessionId: SessionId, status: string)
    | SessionStatusReport(sessionId: SessionId, report: string)
    | MessageReceived(sessionId: SessionId, from: SessionId, content: string)
    | TurnStarted(sessionId: SessionId, turnId: string)
    | TurnComplete(sessionId: SessionId, durationUs: nat, usage: Option<Usage>)
    | ChildSpawned(parentId: SessionId, childId: SessionId)
    | ChildExited(parentId: SessionId, childId: SessionId)
    | CheckpointRequested

  /** Events about children and checkpoints belong to no session as far as tagging goes. */
  function SessionOf(event: CoreOutput): Option<SessionId> {
    if event.ChildSpawned? || event.ChildExited? || event.CheckpointRequested? then None else Some(event.sessionId)
  }

  datatype Notification = Notification(event: CoreOutput, turnId: Option<string>)

  /** The start of a turn carries its turn id by itself; nothing else does. */
  function Untagged(event: CoreOutput): Notification {
    Notification(event, if event.TurnStarted? then Some(event.turnId) else None)
  }

  /** A turn id that is already there is kept; a notification without parameters cannot take one. */
  function WithTurnId(n: Notification, turnId: string): Notification {
    if n.turnId.Some? || n.event.CheckpointRequested? then n else n.(turnId := Some(turnId))
  }

  type ActiveTurns = map<SessionId, string>

  function NextTurns(turns: ActiveTurns, event: CoreOutput): ActiveTurns {
    match event
    case TurnStarted(sessionId, turnId) => turns[sessionId := turnId]
    case TurnComplete(sessionId, _, _) => turns - {sessionId}
    case _ => turns
  }

  /** The notification for an event while the given turns are active. */
  function Tagged(turns: ActiveTurns, event: CoreOutput): Notification {
    var session := SessionOf(event);
    if event.TurnStarted? || session.None? || session.value !in turns then Untagged(event)
    else WithTurnId(Untagged(event), turns[session.value])
  }

  class TurnTagger {
    var activeTurns: ActiveTurns

    constructor ()
      ensures activeTurns == map[]
    {
      activeTurns := map[];
    }

    method Notify(event: CoreOutput) returns (notification: Notification)
      modifies this
      ensures notification == Tagged(old(activeTurns), event)
      ensures activeTurns == NextTurns(old(activeTurns), event)
    {
      if event.TurnStarted? {
        activeTurns := activeTurns[event.sessionId := event.turnId];
        return Untagged(event);
      }
      if event.TurnComplete? {
        var turnId := if event.sessionId in activeTurns then Some(activeTurns[event.sessionId]) else None;
        activeTurns := activeTurns - {event.sessionId};
        notification := Untagged(event);
        if turnId.Some? {
          notification := WithTurnId(notification, turnId.value);
        }
        return;
      }
      var sessionId := SessionOf(event);
      var turnId := if sessionId.Some? && sessionId.value in activeTurns then Some(activeTurns[sessionId.value]) else None;
      notification := Untagged(event);
      if turnId.Some? {
        notification := WithTurnId(notification, turnId.value);
      }
    }
  }

  function TagAll(turns: ActiveTurns, events: seq<CoreOutput>): seq<Notification>
    decreases |events|
  {
    if events == [] then []
    else [Tagged(turns, events[0])] + TagAll(NextTurns(turns, events[0]), events[1..])
  }

  /** One subscriber's stream of notifications. */
  method NotifyAll(events: seq<CoreOutput>) returns (notifications: seq<Notification>)
    ensures notifications == TagAll(map[], events)
  {
    var tagger := new TurnTagger();
    notifications := [];
    for i := 0 to |events|
      invariant notifications + TagAll(tagger.activeTurns, events[i..]) == TagAll(map[], events)
    {
      assert events[i..][0] == events[i] && events[i..][1..] == events[i + 1..];
      var notification := tagger.Notify(events[i]);
      notifications := notifications + [notification];
    }
  }

  // ----- What each tag says -----

  /** The turn a session is in after some events: the one it started last, unless that is complete. */
  function TurnOf(events: seq<CoreOutput>, session: SessionId): Option<string> {
    if events == [] then None
    else
      match events[|events| - 1]
      case TurnStarted(s, turnId) => if s == session then Some(turnId) else TurnOf(events[..|events| - 1], session)
      case TurnComplete(s, _, _) => if s == session then None else TurnOf(events[..|events| - 1], session)
      case _ => TurnOf(events[..|events| - 1], session)
  }

  /** The tag of an event: its own for a start, none for children and checkpoints, else the turn its session is in. */
  function TagOf(before: seq<CoreOutput>, event: CoreOutput): Option<string> {
    if event.TurnStarted? then Some(event.turnId)
    else if event.ChildSpawned? || event.ChildExited? || event.CheckpointRequested? then None
    else TurnOf(before, event.sessionId)
  }

  function TurnsAfter(events: seq<CoreOutput>): ActiveTurns {
    if events == [] then map[] else NextTurns(TurnsAfter(events[..|events| - 1]), events[|events| - 1])
  }

  lemma {:induction false} TurnsAre(events: seq<CoreOutput>, session: SessionId)
    ensures session in TurnsAfter(events) <==> TurnOf(events, session).Some?
    ensures session in TurnsAfter(events) ==> TurnOf(events, session) == Some(TurnsAfter(events)[session])
  {
    if events != [] {
      TurnsAre(events[..|events| - 1], session);
    }
  }

  lemma {:induction false} TagAllFrom(before: seq<CoreOutput>, events: seq<CoreOutput>)
    ensures |TagAll(TurnsAfter(before), events)| == |events|
    ensures forall k | 0 <= k < |events| ::
              TagAll(TurnsAfter(before), events)[k] == Notification(events[k], TagOf(before + events[..k], events[k]))
    decreases |events|
  {
    hide Tagged, NextTurns, TagOf;
    if events != [] {
      var event, rest := events[0], events[1..];
      assert (before + [event])[..|before|] == before;
      TagAllFrom(before + [event], rest);
      TagIsTurn(before, event);
      assert before + events[..0] == before;
      forall k | 0 < k < |events|
        ensures TagAll(TurnsAfter(before), events)[k] == Notification(events[k], TagOf(before + events[..k], events[k]))
      {
        assert before + [event] + rest[..k - 1] == before + events[..k];
        assert events[k] == rest[k - 1];
      }
    }
  }

  lemma TagIsTurn(before: seq<CoreOutput>, event: CoreOutput)
    ensures Tagged(TurnsAfter(before), event) == Notification(event, TagOf(before, event))
  {
    if !event.ChildSpawned? && !event.ChildExited? && !event.CheckpointRequested? {
      TurnsAre(before, event.sessionId);
    }
  }

  /** Main result: one subscriber gets every event once, in order, each with the turn its session is in. */
  lemma EveryEventIsTagged(events: seq<CoreOutput>)
    ensures |TagAll(map[], events)| == |events|
    ensures forall k | 0 <= k < |events| :: TagAll(map[], events)[k] == Notification(events[k], TagOf(events[..k], events[k]))
  {
    TagAllFrom([], events);
    assert forall k | 0 <= k < |events| :: [] + events[..k] == events[..k];
  }
}
