/**
  For one subscriber with its own tagger: tagging the interleaved events of all sessions
  and collecting on the tag sees exactly the events of the turn that was asked for.
 */
module TurnCorrelation {
  import opened Wrappers
  import opened SessionTrees
  import opened TurnTagging
  import opened TurnCollecting

  /** The event reports something of the session itself. */
  predicate Concerns(event: CoreOutput, session: SessionId) {
    !event.ChildSpawned? && !event.ChildExited? && !event.CheckpointRequested? && event.sessionId == session
  }

  /** The events of a session up to and including the end of its turn. */
  function UntilComplete(events: seq<CoreOutput>, session: SessionId): seq<CoreOutput> {
    if events == [] then []
    else if !Concerns(events[0], session) then UntilComplete(events[1..], session)
    else if events[0].TurnComplete? then [events[0]]
    else [events[0]] + UntilComplete(events[1..], session)
  }

  /** The turn itself: what the session reports from the start of the turn to its end. */
  function TurnEvents(events: seq<CoreOutput>, session: SessionId, turnId: string): seq<CoreOutput> {
    if events == [] then []
    else if events[0] == TurnStarted(session, turnId) then [events[0]] + UntilComplete(events[1..], session)
    else TurnEvents(events[1..], session, turnId)
  }

  /** The part of it that carries the tag: another turn of the session takes the tag away. */
  function UntilCompleteOrRestart(events: seq<CoreOutput>, session: SessionId): seq<CoreOutput> {
    if events == [] then []
    else if !Concerns(events[0], session) then UntilCompleteOrRestart(events[1..], session)
    else if events[0].TurnStarted? then []
    else if events[0].TurnComplete? then [events[0]]
    else [events[0]] + UntilCompleteOrRestart(events[1..], session)
  }

  /** What of the turn reaches a client that waits for it. */
  function SeenEvents(events: seq<CoreOutput>, session: SessionId, turnId: string): seq<CoreOutput> {
    if events == [] then []
    else if events[0] == TurnStarted(session, turnId) then [events[0]] + UntilCompleteOrRestart(events[1..], session)
    else SeenEvents(events[1..], session, turnId)
  }

  /** All of these events as notifications of one turn. */
  function Stamped(events: seq<CoreOutput>, turnId: string): seq<Notification> {
    seq(|events|, i requires 0 <= i < |events| => Notification(events[i], Some(turnId)))
  }

  predicate StartsTurn(event: CoreOutput, turnId: string) {
    event.TurnStarted? && event.turnId == turnId
  }

  /** The turn id is used once, by this session. */
  ghost predicate UniqueTurn(events: seq<CoreOutput>, session: SessionId, turnId: string) {
    && (forall i | 0 <= i < |events| && StartsTurn(events[i], turnId) :: events[i].sessionId == session)
    && (forall i, j | 0 <= i < j < |events| :: !(StartsTurn(events[i], turnId) && StartsTurn(events[j], turnId)))
  }

  /** The session starts no other turn before this one is complete. */
  ghost predicate NotOverlapped(events: seq<CoreOutput>, session: SessionId, turnId: string) {
    forall i, j | 0 <= i < j < |events| && StartsTurn(events[i], turnId)
                  && IsRestart(events[j], session) ::
      exists k :: i < k < j && IsCompletion(events[k], session)
  }

  /** Out of interleaved events, those of one session. */
  function Own(events: seq<CoreOutput>, session: SessionId): seq<CoreOutput> {
    if events == [] then []
    else (if Concerns(events[0], session) then [events[0]] else []) + Own(events[1..], session)
  }

  /** The session neither starts nor completes a turn. */
  predicate StaysInTurn(events: seq<CoreOutput>, session: SessionId) {
    forall i | 0 <= i < |events| :: !IsRestart(events[i], session) && !IsCompletion(events[i], session)
  }

  lemma {:induction false} OwnUntilComplete(within: seq<CoreOutput>, end: CoreOutput, after: seq<CoreOutput>, session: SessionId)
    requires StaysInTurn(within, session) && IsCompletion(end, session)
    ensures UntilComplete(within + ([end] + after), session) == Own(within, session) + [end]
    ensures UntilCompleteOrRestart(within + ([end] + after), session) == Own(within, session) + [end]
  {
    var events := within + ([end] + after);
    if within == [] {
      assert events == [end] + after;
    } else {
      var rest := within[1..];
      assert events[0] == within[0] && events[1..] == rest + ([end] + after);
      assert forall i | 0 <= i < |rest| :: rest[i] == within[i + 1];
      OwnUntilComplete(rest, end, after, session);
    }
  }

  /**
    Main result: a turn is everything its session reports between start and end, of
    whatever kind and with whatever other sessions report in between, and nothing else.
   */
  lemma {:induction false} TurnIsWhole(before: seq<CoreOutput>, within: seq<CoreOutput>, after: seq<CoreOutput>,
                                       session: SessionId, turnId: string, durationUs: nat, usage: Option<Usage>)
    requires forall i | 0 <= i < |before| :: before[i] != TurnStarted(session, turnId)
    requires StaysInTurn(within, session)
    ensures
      var start, end := TurnStarted(session, turnId), TurnComplete(session, durationUs, usage);
      var events := before + ([start] + (within + ([end] + after)));
      && TurnEvents(events, session, turnId) == [start] + Own(within, session) + [end]
      && SeenEvents(events, session, turnId) == [start] + Own(within, session) + [end]
  {
    var start, end := TurnStarted(session, turnId), TurnComplete(session, durationUs, usage);
    var turn := [start] + (within + ([end] + after));
    if before == [] {
      assert before + turn == turn && turn[1..] == within + ([end] + after);
      OwnUntilComplete(within, end, after, session);
      assert [start] + (Own(within, session) + [end]) == [start] + Own(within, session) + [end];
    } else {
      var rest := before[1..];
      assert (before + turn)[0] == before[0] && (before + turn)[1..] == rest + turn;
      assert forall i | 0 <= i < |rest| :: rest[i] == before[i + 1];
      TurnIsWhole(rest, within, after, session, turnId, durationUs, usage);
    }
  }

  /** A turn of one session alone is the whole list. */
  lemma {:induction false} OwnIsAll(events: seq<CoreOutput>, session: SessionId)
    requires forall i | 0 <= i < |events| ::
               && !events[i].ChildSpawned? && !events[i].ChildExited? && !events[i].CheckpointRequested?
               && events[i].sessionId == session
    ensures Own(events, session) == events
  {
    if events != [] {
      var rest := events[1..];
      assert forall i | 0 <= i < |rest| :: rest[i] == events[i + 1];
      OwnIsAll(rest, session);
    }
  }

  // ----- The same, event by event -----

  ghost predicate NeverStarts(events: seq<CoreOutput>, turnId: string) {
    forall i | 0 <= i < |events| :: !StartsTurn(events[i], turnId)
  }

  /** The session starts no turn before it completes one. */
  predicate NotRestarted(events: seq<CoreOutput>, session: SessionId) {
    events == [] ||
    (if !Concerns(events[0], session) then NotRestarted(events[1..], session)
     else events[0].TurnComplete? || (!events[0].TurnStarted? && NotRestarted(events[1..], session)))
  }

  predicate IsRestart(event: CoreOutput, session: SessionId) {
    event.TurnStarted? && event.sessionId == session
  }

  predicate IsCompletion(event: CoreOutput, session: SessionId) {
    event.TurnComplete? && event.sessionId == session
  }

  lemma {:induction false} NotRestartedIff(events: seq<CoreOutput>, session: SessionId)
    ensures NotRestarted(events, session)
       <==> forall j | 0 <= j < |events| && IsRestart(events[j], session) ::
              exists k :: 0 <= k < j && IsCompletion(events[k], session)
    decreases |events|
  {
    if events != [] {
      var first, rest := events[0], events[1..];
      NotRestartedIff(rest, session);
      if IsRestart(first, session) {
        assert IsRestart(events[0], session);
      } else if !IsCompletion(first, session) {
        forall j | 0 <= j < |rest| && IsRestart(rest[j], session)
          ensures (exists k :: 0 <= k < j && IsCompletion(rest[k], session))
             <==> (exists k :: 0 <= k < j + 1 && IsCompletion(events[k], session))
        {
          CompletionShifts(events, session, j);
        }
        assert forall j | 0 <= j < |rest| :: rest[j] == events[j + 1];
        assert forall j | 0 < j < |events| :: events[j] == rest[j - 1];
      }
    }
  }

  lemma CompletionShifts(events: seq<CoreOutput>, session: SessionId, j: nat)
    requires j < |events| - 1 && !IsCompletion(events[0], session)
    ensures (exists k :: 0 <= k < j && IsCompletion(events[1..][k], session))
       <==> (exists k :: 0 <= k < j + 1 && IsCompletion(events[k], session))
  {
    if k :| 0 <= k < j && IsCompletion(events[1..][k], session) {
      assert IsCompletion(events[k + 1], session);
    }
    if k :| 0 <= k < j + 1 && IsCompletion(events[k], session) {
      assert IsCompletion(events[1..][k - 1], session);
    }
  }

  /** All of the turn carries the tag exactly when the session does not start another one in it. */
  lemma {:induction false} SeesAllIff(events: seq<CoreOutput>, session: SessionId)
    ensures UntilCompleteOrRestart(events, session) == UntilComplete(events, session) <==> NotRestarted(events, session)
    ensures |UntilCompleteOrRestart(events, session)| <= |UntilComplete(events, session)|
    decreases |events|
  {
    if events != [] {
      SeesAllIff(events[1..], session);
      var seen, all := UntilCompleteOrRestart(events[1..], session), UntilComplete(events[1..], session);
      assert ([events[0]] + seen)[1..] == seen && ([events[0]] + all)[1..] == all;
    }
  }

  /** For a turn id that is used once, the turns overlap exactly when something of the turn is not seen. */
  lemma {:induction false} SeenIsTurnIff(events: seq<CoreOutput>, session: SessionId, turnId: string)
    requires UniqueTurn(events, session, turnId)
    ensures SeenEvents(events, session, turnId) == TurnEvents(events, session, turnId)
       <==> NotOverlapped(events, session, turnId)
    decreases |events|
  {
    hide UntilComplete, UntilCompleteOrRestart, NotRestarted;
    if events != [] {
      var rest := events[1..];
      if StartsTurn(events[0], turnId) {
        SeesAllIff(rest, session);
        NotRestartedIff(rest, session);
        var seen, all := UntilCompleteOrRestart(rest, session), UntilComplete(rest, session);
        assert ([events[0]] + seen)[1..] == seen && ([events[0]] + all)[1..] == all;
        OverlapOfFirst(events, session, turnId);
      } else {
        RestIsUnique(events, session, turnId);
        SeenIsTurnIff(rest, session, turnId);
      }
    }
  }

  lemma OverlapOfFirst(events: seq<CoreOutput>, session: SessionId, turnId: string)
    requires UniqueTurn(events, session, turnId) && events != [] && StartsTurn(events[0], turnId)
    ensures NotOverlapped(events, session, turnId)
       <==> forall j | 0 <= j < |events[1..]| && IsRestart(events[1..][j], session) ::
              exists k :: 0 <= k < j && IsCompletion(events[1..][k], session)
  {
    var rest := events[1..];
    if NotOverlapped(events, session, turnId) {
      forall j | 0 <= j < |rest| && IsRestart(rest[j], session)
        ensures exists k :: 0 <= k < j && IsCompletion(rest[k], session)
      {
        assert events[j + 1] == rest[j];
        var k :| 0 < k < j + 1 && IsCompletion(events[k], session);
        assert rest[k - 1] == events[k];
      }
    }
    if forall j | 0 <= j < |rest| && IsRestart(rest[j], session) :: exists k :: 0 <= k < j && IsCompletion(rest[k], session) {
      forall i, j | 0 <= i < j < |events| && StartsTurn(events[i], turnId) && IsRestart(events[j], session)
        ensures exists k :: i < k < j && IsCompletion(events[k], session)
      {
        assert i == 0 && rest[j - 1] == events[j];
        var k :| 0 <= k < j - 1 && IsCompletion(rest[k], session);
        assert IsCompletion(events[k + 1], session);
      }
    }
  }

  lemma RestIsUnique(events: seq<CoreOutput>, session: SessionId, turnId: string)
    requires events != [] && UniqueTurn(events, session, turnId) && !StartsTurn(events[0], turnId)
    ensures UniqueTurn(events[1..], session, turnId)
    ensures NotOverlapped(events[1..], session, turnId) <==> NotOverlapped(events, session, turnId)
  {
    var rest := events[1..];
    assert forall i | 0 <= i < |rest| :: rest[i] == events[i + 1];
    if NotOverlapped(events, session, turnId) {
      forall i, j | 0 <= i < j < |rest| && StartsTurn(rest[i], turnId) && IsRestart(rest[j], session)
        ensures exists k :: i < k < j && IsCompletion(rest[k], session)
      {
        var k :| i + 1 < k < j + 1 && IsCompletion(events[k], session);
        assert rest[k - 1] == events[k];
      }
    }
    if NotOverlapped(rest, session, turnId) {
      forall i, j | 0 <= i < j < |events| && StartsTurn(events[i], turnId) && IsRestart(events[j], session)
        ensures exists k :: i < k < j && IsCompletion(events[k], session)
      {
        assert rest[i - 1] == events[i] && rest[j - 1] == events[j];
        var k :| i - 1 < k < j - 1 && IsCompletion(rest[k], session);
        assert IsCompletion(events[k + 1], session);
      }
    }
  }

  // ----- Following the tags -----

  ghost predicate TagIsAbsent(turns: ActiveTurns, turnId: string) {
    forall s | s in turns :: turns[s] != turnId
  }

  ghost predicate TagIsOnly(turns: ActiveTurns, session: SessionId, turnId: string) {
    && session in turns && turns[session] == turnId
    && forall s | s in turns && s != session :: turns[s] != turnId
  }

  function RequestFor(session: SessionId, turnId: string, autoApprove: bool): Request {
    Request(session, Some(turnId), autoApprove)
  }

  /** A notification that does not carry the tag leaves the collector as it is. */
  lemma OtherTagIsSkipped(session: SessionId, turnId: string, autoApprove: bool, c: Collected, n: Notification)
    requires n.turnId != Some(turnId)
    ensures Received(RequestFor(session, turnId, autoApprove), c, n) == Waiting(c)
  {
  }

  /** Once the tag is gone and its turn does not start again, the collector waits for ever. */
  lemma {:induction false} CollectsNothing(events: seq<CoreOutput>, turns: ActiveTurns, session: SessionId, turnId: string,
                                           autoApprove: bool, c: Collected)
    requires NeverStarts(events, turnId) && TagIsAbsent(turns, turnId)
    ensures CollectFrom(RequestFor(session, turnId, autoApprove), c, TagAll(turns, events)) == Waiting(c)
    decreases |events|
  {
    hide Received, CollectFrom, Tagged, NextTurns;
    var request := RequestFor(session, turnId, autoApprove);
    if events == [] {
      NothingCollected(request, c);
    } else {
      var n, next := Tagged(turns, events[0]), NextTurns(turns, events[0]);
      TagsBefore(turns, events[0], session, turnId);
      OtherTagIsSkipped(session, turnId, autoApprove, c, n);
      CollectOne(request, c, n, TagAll(next, events[1..]));
      CollectsNothing(events[1..], next, session, turnId, autoApprove, c);
    }
  }

  lemma NothingCollected(request: Request, c: Collected)
    ensures CollectFrom(request, c, []) == Waiting(c)
  {
  }

  /** While the turn is open, the collector gets exactly the events of its session. */
  lemma {:induction false} CollectsOpenTurn(events: seq<CoreOutput>, turns: ActiveTurns, session: SessionId, turnId: string,
                                            autoApprove: bool, c: Collected)
    requires NeverStarts(events, turnId) && TagIsOnly(turns, session, turnId)
    ensures CollectFrom(RequestFor(session, turnId, autoApprove), c, TagAll(turns, events))
         == CollectFrom(RequestFor(session, turnId, autoApprove), c, Stamped(UntilCompleteOrRestart(events, session), turnId))
    decreases |events|
  {
    hide Received, CollectFrom, Tagged, NextTurns;
    var request := RequestFor(session, turnId, autoApprove);
    if events == [] {
      assert Stamped([], turnId) == [];
    } else {
      var event, rest := events[0], events[1..];
      var n, next := Tagged(turns, event), NextTurns(turns, event);
      var tagged := TagAll(next, rest);
      assert TagAll(turns, events) == [n] + tagged;
      if IsRestart(event, session) {
        RestartTakesTag(turns, event, session, turnId);
        OtherTagIsSkipped(session, turnId, autoApprove, c, n);
        CollectOne(request, c, n, tagged);
        CollectsNothing(rest, next, session, turnId, autoApprove, c);
        assert Stamped([], turnId) == [];
        NothingCollected(request, c);
      } else {
        TagsWhileOpen(turns, event, session, turnId);
        if !Concerns(event, session) {
          OtherTagIsSkipped(session, turnId, autoApprove, c, n);
          CollectOne(request, c, n, tagged);
          CollectsOpenTurn(rest, next, session, turnId, autoApprove, c);
        } else if event.TurnComplete? {
          assert Stamped([event], turnId) == [n] + [];
          CompletionEnds(request, c, n, tagged);
          CompletionEnds(request, c, n, []);
        } else {
          var own := UntilCompleteOrRestart(rest, session);
          assert Stamped([event] + own, turnId) == [n] + Stamped(own, turnId);
          CollectOne(request, c, n, tagged);
          CollectOne(request, c, n, Stamped(own, turnId));
          if Received(request, c, n).Waiting? {
            CollectsOpenTurn(rest, next, session, turnId, autoApprove, Received(request, c, n).collected);
          }
        }
      }
    }
  }

  lemma RestartTakesTag(turns: ActiveTurns, event: CoreOutput, session: SessionId, turnId: string)
    requires TagIsOnly(turns, session, turnId) && IsRestart(event, session) && !StartsTurn(event, turnId)
    ensures Tagged(turns, event).turnId != Some(turnId) && TagIsAbsent(NextTurns(turns, event), turnId)
  {
  }

  lemma CollectOne(request: Request, c: Collected, n: Notification, more: seq<Notification>)
    ensures CollectFrom(request, c, [n] + more)
         == if Received(request, c, n).Waiting? then CollectFrom(request, Received(request, c, n).collected, more)
            else Received(request, c, n)
  {
    assert ([n] + more)[1..] == more;
  }

  lemma CompletionEnds(request: Request, c: Collected, n: Notification, more: seq<Notification>)
    requires n.event.TurnComplete? && n.event.sessionId == request.sessionId && n.turnId == request.expectedTurnId
    ensures CollectFrom(request, c, [n] + more) == Received(request, c, n)
  {
  }

  lemma TagsWhileOpen(turns: ActiveTurns, event: CoreOutput, session: SessionId, turnId: string)
    requires TagIsOnly(turns, session, turnId) && !StartsTurn(event, turnId)
    requires !(event.TurnStarted? && event.sessionId == session)
    ensures Tagged(turns, event).event == event
    ensures Tagged(turns, event).turnId == Some(turnId) <==> Concerns(event, session)
    ensures !(event.TurnComplete? && event.sessionId == session) ==> TagIsOnly(NextTurns(turns, event), session, turnId)
  {
  }

  lemma {:induction false} CollectsTurn(events: seq<CoreOutput>, turns: ActiveTurns, session: SessionId, turnId: string, autoApprove: bool)
    requires UniqueTurn(events, session, turnId) && TagIsAbsent(turns, turnId)
    ensures
      var request := RequestFor(session, turnId, autoApprove);
      CollectFrom(request, Initially(request), TagAll(turns, events))
      == CollectFrom(request, Initially(request), Stamped(SeenEvents(events, session, turnId), turnId))
    decreases |events|
  {
    hide Received, CollectFrom, Tagged, NextTurns;
    var request := RequestFor(session, turnId, autoApprove);
    var c := Initially(request);
    if events == [] {
      assert Stamped([], turnId) == [];
    } else {
      var event, rest := events[0], events[1..];
      var n, next := Tagged(turns, event), NextTurns(turns, event);
      assert TagAll(turns, events) == [n] + TagAll(next, rest);
      CollectOne(request, c, n, TagAll(next, rest));
      TagsBefore(turns, event, session, turnId);
      if StartsTurn(event, turnId) {
        var own := UntilCompleteOrRestart(rest, session);
        assert forall i | 0 <= i < |rest| :: rest[i] == events[i + 1];
        assert Stamped([event] + own, turnId) == [n] + Stamped(own, turnId);
        StartClears(request, c, n);
        CollectOne(request, c, n, Stamped(own, turnId));
        CollectsOpenTurn(rest, next, session, turnId, autoApprove, c.Cleared());
      } else {
        OtherTagIsSkipped(session, turnId, autoApprove, c, n);
        RestIsUnique(events, session, turnId);
        CollectsTurn(rest, next, session, turnId, autoApprove);
      }
    }
  }

  lemma StartClears(request: Request, c: Collected, n: Notification)
    requires n.event.TurnStarted? && n.event.sessionId == request.sessionId && n.turnId == request.expectedTurnId
    ensures Received(request, c, n) == Waiting(c.Cleared())
  {
  }

  lemma TagsBefore(turns: ActiveTurns, event: CoreOutput, session: SessionId, turnId: string)
    requires TagIsAbsent(turns, turnId)
    ensures Tagged(turns, event).event == event
    ensures StartsTurn(event, turnId) ==>
      && Tagged(turns, event).turnId == Some(turnId)
      && (event.sessionId == session ==> TagIsOnly(NextTurns(turns, event), session, turnId))
    ensures !StartsTurn(event, turnId) ==>
      Tagged(turns, event).turnId != Some(turnId) && TagIsAbsent(NextTurns(turns, event), turnId)
  {
  }

  /**
    Main result: for every interleaving of sessions and turns in which the turn id is
    unique, the outcome is that of collecting just the session's own events from the
    start of the turn to its end, or to the start of another turn of the session.
   */
  lemma TaggedCollectionIsSeen(events: seq<CoreOutput>, session: SessionId, turnId: string, autoApprove: bool)
    requires UniqueTurn(events, session, turnId)
    ensures Collect(RequestFor(session, turnId, autoApprove), TagAll(map[], events))
         == Collect(RequestFor(session, turnId, autoApprove), Stamped(SeenEvents(events, session, turnId), turnId))
  {
    CollectsTurn(events, map[], session, turnId, autoApprove);
  }

  /** Main result: where the session's turns do not overlap this one, that is the whole turn. */
  lemma TaggedCollectionIsTheTurn(events: seq<CoreOutput>, session: SessionId, turnId: string, autoApprove: bool)
    requires UniqueTurn(events, session, turnId) && NotOverlapped(events, session, turnId)
    ensures Collect(RequestFor(session, turnId, autoApprove), TagAll(map[], events))
         == Collect(RequestFor(session, turnId, autoApprove), Stamped(TurnEvents(events, session, turnId), turnId))
  {
    SeenIsTurnIff(events, session, turnId);
    TaggedCollectionIsSeen(events, session, turnId, autoApprove);
  }
}
