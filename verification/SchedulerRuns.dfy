/**
  Whole runs of the scheduler loop, as steps: dispatching one due entry, handling one
  command, learning that the command channel is closed.  The clock never goes back.
  Nothing here asks for positive cadences.
 */
module SchedulerRuns {
  import opened Wrappers
  import opened Schedulers

  datatype Step =
    | Dispatch(now: nat, accepted: bool)
    | Handle(now: nat, command: Command)
    | Close(now: nat)
    | Return(now: nat)

  /** The loop dispatches only what is due, stops listening once the channel is closed, and then returns when nothing is left. */
  predicate Enabled(s: State, step: Step) {
    && !s.stopped
    && match step
       case Dispatch(now, _) => TopIsDue(s.pending, now)
       case Handle(_, _) => !s.channelClosed
       case Close(_) => !s.channelClosed
       case Return(_) => s.channelClosed && s.pending == []
  }

  function Stepped(s: State, step: Step): State
    requires Enabled(s, step)
  {
    match step
    case Dispatch(_, accepted) => Dispatched(s, accepted)
    case Handle(now, command) => Handled(s, command, now)
    case Close(_) => s.(channelClosed := true)
    case Return(_) => s.(stopped := true)
  }

  /** A run that was possible leads to a state; the clock readings do not decrease. */
  ghost predicate Runs(steps: seq<Step>, s: State) {
    if steps == [] then s == INITIAL
    else
      var front, last := steps[..|steps| - 1], steps[|steps| - 1];
      && (front != [] ==> front[|front| - 1].now <= last.now)
      && exists before: State :: Runs(front, before) && Enabled(before, last) && s == Stepped(before, last)
  }

  function Clock(steps: seq<Step>): nat {
    if steps == [] then 0 else steps[|steps| - 1].now
  }

  /** The state before the last step. */
  lemma Before(steps: seq<Step>, s: State) returns (before: State)
    requires Runs(steps, s) && steps != []
    ensures Runs(steps[..|steps| - 1], before) && Enabled(before, steps[|steps| - 1])
    ensures s == Stepped(before, steps[|steps| - 1])
    ensures Clock(steps[..|steps| - 1]) <= Clock(steps)
  {
    before :| Runs(steps[..|steps| - 1], before) && Enabled(before, steps[|steps| - 1]) && s == Stepped(before, steps[|steps| - 1]);
  }

  // ----- Order -----

  ghost predicate Increasing(sent: seq<QueuedCommand>) {
    forall i, j | 0 <= i < j < |sent| :: Precedes(sent[i], sent[j])
  }

  ghost predicate AllPrecede(sent: seq<QueuedCommand>, pending: seq<QueuedCommand>) {
    forall p, q | p in sent && q in pending :: Precedes(p, q)
  }

  ghost predicate NumberedApart(pending: seq<QueuedCommand>, nextSequence: nat) {
    && (forall q | q in pending :: q.sequence < nextSequence)
    && (forall i, j | 0 <= i < j < |pending| :: pending[i].sequence != pending[j].sequence)
  }

  /** The queue invariant of every run. */
  ghost predicate Ordered(s: State, clock: nat) {
    && NumberedApart(s.pending, s.nextSequence)
    && (forall p | p in s.sent :: p.executeAt <= clock && p.sequence < s.nextSequence)
    && Increasing(s.sent)
    && AllPrecede(s.sent, s.pending)
  }

  /** The top goes before everything that stays pending. */
  lemma TopPrecedesRest(pending: seq<QueuedCommand>, nextSequence: nat)
    requires pending != [] && NumberedApart(pending, nextSequence)
    ensures forall q | q in WithoutTop(pending) :: Precedes(Top(pending), q)
    ensures NumberedApart(WithoutTop(pending), nextSequence)
    ensures forall q | q in WithoutTop(pending) :: q in pending
  {
    var i, rest := TopIndex(pending), WithoutTop(pending);
    forall k | 0 <= k < |rest|
      ensures rest[k] == pending[if k < i then k else k + 1]
    {
    }
    forall q | q in rest
      ensures Precedes(Top(pending), q)
    {
      var k :| 0 <= k < |rest| && rest[k] == q;
      var at := if k < i then k else k + 1;
      assert !Precedes(pending[at], pending[i]);
      assert pending[at].sequence != pending[i].sequence;
    }
  }

  lemma DispatchKeepsOrder(s: State, clock: nat, now: nat, accepted: bool)
    requires Ordered(s, clock) && TopIsDue(s.pending, now) && clock <= now
    ensures Ordered(Dispatched(s, accepted), now)
  {
    hide TopIndex;
    var top, rest, after := Top(s.pending), WithoutTop(s.pending), Dispatched(s, accepted);
    TopPrecedesRest(s.pending, s.nextSequence);
    assert top in s.pending;
    forall q | q in after.pending
      ensures Precedes(top, q)
    {
      if q !in rest {
        assert top.action.cadence.Some? && q.executeAt == top.executeAt + top.action.cadence.value && q.sequence == s.nextSequence;
      }
    }
    forall p, q | p in after.sent && q in after.pending
      ensures Precedes(p, q)
    {
      if p in s.sent {
        assert Precedes(p, top) && Precedes(top, q);
      }
    }
    forall i, j | 0 <= i < j < |after.sent|
      ensures Precedes(after.sent[i], after.sent[j])
    {
      if j == |s.sent| {
        assert after.sent[i] in s.sent;
      }
    }
  }

  lemma HandleKeepsOrder(s: State, clock: nat, now: nat, command: Command)
    requires Ordered(s, clock) && clock <= now
    ensures Ordered(Handled(s, command, now), now)
  {
  }

  /** The invariant holds in every state of every run. */
  lemma {:induction false} RunsAreOrdered(steps: seq<Step>, s: State)
    requires Runs(steps, s)
    ensures Ordered(s, Clock(steps))
  {
    hide Ordered;
    if steps == [] {
      NothingIsOrdered();
    } else {
      var before := Before(steps, s);
      var front, last := steps[..|steps| - 1], steps[|steps| - 1];
      RunsAreOrdered(front, before);
      match last
      case Dispatch(now, accepted) => DispatchKeepsOrder(before, Clock(front), now, accepted);
      case Handle(now, command) => HandleKeepsOrder(before, Clock(front), now, command);
      case _ => ClockMayAdvance(before, s, Clock(front), last.now);
    }
  }

  lemma NothingIsOrdered()
    ensures Ordered(INITIAL, 0)
  {
  }

  lemma ClockMayAdvance(s: State, t: State, clock: nat, now: nat)
    requires Ordered(s, clock) && clock <= now
    requires t == s.(channelClosed := true) || t == s.(stopped := true)
    ensures Ordered(t, now)
  {
  }

  /** Main result: across the whole run the dispatched (deadline, sequence) keys strictly increase. */
  lemma DispatchedKeysIncrease(steps: seq<Step>, s: State, i: nat, j: nat)
    requires Runs(steps, s) && i < j < |s.sent|
    ensures Precedes(s.sent[i], s.sent[j])
  {
    RunsAreOrdered(steps, s);
  }

  // ----- Timing -----

  function IsSend(step: Step): bool {
    step.Dispatch? && step.accepted
  }

  function SendTimes(steps: seq<Step>): seq<nat> {
    if steps == [] then []
    else SendTimes(steps[..|steps| - 1]) + if IsSend(steps[|steps| - 1]) then [steps[|steps| - 1].now] else []
  }

  ghost predicate Timely(sent: seq<QueuedCommand>, times: seq<nat>) {
    |times| == |sent| && forall k | 0 <= k < |sent| :: sent[k].executeAt <= times[k]
  }

  lemma StillTimely(sent: seq<QueuedCommand>, times: seq<nat>, queued: QueuedCommand, time: nat)
    requires Timely(sent, times) && queued.executeAt <= time
    ensures Timely(sent + [queued], times + [time])
  {
  }

  /** Main result: nothing is sent before its deadline. */
  lemma {:induction false} NothingIsEarly(steps: seq<Step>, s: State)
    requires Runs(steps, s)
    ensures Timely(s.sent, SendTimes(steps))
  {
    hide Stepped, TopIndex, Timely, Enabled;
    if steps == [] {
      NothingIsTimely();
    } else {
      var before := Before(steps, s);
      var last := steps[|steps| - 1];
      NothingIsEarly(steps[..|steps| - 1], before);
      hide Runs;
      StepSends(before, last);
      if IsSend(last) {
        StillTimely(before.sent, SendTimes(steps[..|steps| - 1]), Top(before.pending), last.now);
      } else {
        assert before.sent + [] == before.sent;
        assert SendTimes(steps[..|steps| - 1]) + [] == SendTimes(steps[..|steps| - 1]);
      }
    }
  }

  lemma NothingIsTimely()
    ensures Timely([], [])
  {
  }

  /** A step sends at most the top entry, which is due. */
  lemma StepSends(s: State, step: Step)
    requires Enabled(s, step)
    ensures Stepped(s, step).sent == s.sent + if IsSend(step) then [Top(s.pending)] else []
    ensures IsSend(step) ==> s.pending != [] && Top(s.pending).executeAt <= step.now
  {
  }

  // ----- Shutdown -----

  /** Main result: once a shutdown has been handled, all the loop can still do is return; nothing more is sent. */
  lemma {:induction false} NothingAfterShutdown(steps: seq<Step>, s: State, k: nat)
    requires Runs(steps, s) && k < |steps|
    requires steps[k].Handle? && steps[k].command.Shutdown?
    ensures s.channelClosed && s.pending == []
    ensures k < |steps| - 1 ==> k == |steps| - 2 && steps[k + 1].Return? && s.stopped
    decreases |steps|
  {
    var before := Before(steps, s);
    if k < |steps| - 1 {
      assert steps[..|steps| - 1][k] == steps[k];
      NothingAfterShutdown(steps[..|steps| - 1], before, k);
    }
  }

  // ----- Mailboxes -----

  function SentTo(steps: seq<Step>, name: string): seq<string> {
    if steps == [] then []
    else SentTo(steps[..|steps| - 1], name) + Mail(steps[|steps| - 1], name)
  }

  function ReceivedFrom(replies: seq<Reply>, name: string): seq<string> {
    if replies == [] then []
    else
      var last := replies[|replies| - 1];
      ReceivedFrom(replies[..|replies| - 1], name)
      + if last.source == name && last.message.Some? then [last.message.value] else []
  }

  /** Mailboxes are first in, first out, and lose nothing: received messages, then waiting ones, are those sent. */
  lemma {:induction false} MailboxesAreFifo(steps: seq<Step>, s: State, name: string)
    requires Runs(steps, s)
    ensures SentTo(steps, name) == ReceivedFrom(s.replies, name) + Mailbox(s.mailboxes, name)
  {
    hide TopIndex, Stepped, Mailbox, Enabled, ReceivedFrom;
    if steps != [] {
      var before := Before(steps, s);
      var last := steps[|steps| - 1];
      MailboxesAreFifo(steps[..|steps| - 1], before, name);
      StepKeepsMail(before, last, name);
      assert ReceivedFrom(before.replies, name) + Mailbox(before.mailboxes, name) + Mail(last, name)
          == SentTo(steps, name);
    } else {
      NoMail(name);
    }
  }

  lemma NoMail(name: string)
    ensures ReceivedFrom([], name) + Mailbox(map[], name) == []
  {
  }

  function Mail(step: Step, name: string): seq<string> {
    if step.Handle? && step.command.SendIpcMessage? && step.command.target == name then [step.command.content] else []
  }

  lemma StepKeepsMail(s: State, step: Step, name: string)
    requires Enabled(s, step)
    ensures
      var t := Stepped(s, step);
      ReceivedFrom(t.replies, name) + Mailbox(t.mailboxes, name)
      == ReceivedFrom(s.replies, name) + Mailbox(s.mailboxes, name) + Mail(step, name)
  {
    hide ReceivedFrom, Mailbox, Handled, TopIndex;
    if step.Handle? {
      HandleKeepsMail(s, step.command, step.now, name);
    } else {
      assert Stepped(s, step).replies == s.replies && Stepped(s, step).mailboxes == s.mailboxes;
    }
  }

  lemma OneMoreReply(replies: seq<Reply>, last: Reply, name: string)
    ensures ReceivedFrom(replies + [last], name)
         == ReceivedFrom(replies, name)
            + if last.source == name && last.message.Some? then [last.message.value] else []
  {
    assert (replies + [last])[..|replies|] == replies;
  }

  lemma HandleKeepsMail(s: State, command: Command, now: nat, name: string)
    ensures
      var t := Handled(s, command, now);
      ReceivedFrom(t.replies, name) + Mailbox(t.mailboxes, name)
      == ReceivedFrom(s.replies, name) + Mailbox(s.mailboxes, name)
         + if command.SendIpcMessage? && command.target == name then [command.content] else []
  {
    var t := Handled(s, command, now);
    hide ReceivedFrom;
    if command.RecvIpcMessage? {
      var box := Mailbox(s.mailboxes, command.source);
      var message := if box == [] then None else Some(box[0]);
      assert t.replies == s.replies + [Reply(command.source, message)];
      OneMoreReply(s.replies, Reply(command.source, message), name);
      if command.source == name && box != [] {
        assert ReceivedFrom(s.replies, name) + [box[0]] + box[1..] == ReceivedFrom(s.replies, name) + box;
      }
    }
  }

  // ----- The loop -----

  /** What wakes the loop after a drain, and when. */
  datatype Arrival = CommandArrives(at: nat, command: Command) | ChannelCloses(at: nat) | DeadlinePasses(at: nat)

  /** One turn of the loop: the time read before the drain, and what happens afterwards. */
  datatype Turn = Turn(now: nat, arrival: Arrival)

  ghost predicate IsSchedule(turns: seq<Turn>) {
    && (forall i | 0 <= i < |turns| :: turns[i].now <= turns[i].arrival.at)
    && (forall i, j | 0 <= i < j < |turns| :: turns[i].arrival.at <= turns[j].now)
    && (forall i | 0 <= i < |turns| :: PositiveArrival(turns[i].arrival))
  }

  predicate PositiveArrival(arrival: Arrival) {
    arrival.CommandArrives? && arrival.command.Schedule? ==> PositiveCadence(arrival.command.action)
  }

  predicate AllPositive(pending: seq<QueuedCommand>) {
    forall q | q in pending :: PositiveCadence(q.action)
  }

  /** What the loop does with an arrival after the drain has left state s. */
  function Woken(s: State, arrival: Arrival): State {
    if s.stopped then s
    else if s.channelClosed && s.pending == [] then s.(stopped := true)
    else if s.channelClosed then s
    else
      match arrival
      case CommandArrives(at, command) => Handled(s, command, at)
      case ChannelCloses(_) => s.(channelClosed := true)
      case DeadlinePasses(_) => s
  }

  function LoopTurn(s: State, turn: Turn, receiver: Receiver): State
    requires AllPositive(s.pending)
  {
    Woken(Drained(s, turn.now, receiver), turn.arrival)
  }

  lemma {:induction false} DrainKeepsPositive(s: State, now: nat, receiver: Receiver)
    requires AllPositive(s.pending)
    ensures AllPositive(Drained(s, now, receiver).pending)
    decreases Backlog(s.pending, now)
  {
    if !s.stopped && TopIsDue(s.pending, now) {
      var accepted := receiver.Accepts(|s.sent|);
      DispatchLowersBacklog(s, now, accepted);
      DispatchKeepsPositive(s, accepted);
      DrainKeepsPositive(Dispatched(s, accepted), now, receiver);
    }
  }

  lemma DispatchKeepsPositive(s: State, accepted: bool)
    requires AllPositive(s.pending) && s.pending != []
    ensures AllPositive(Dispatched(s, accepted).pending)
  {
    TopSplits(s.pending);
    assert Top(s.pending) in s.pending;
  }

  lemma WokenKeepsPositive(s: State, arrival: Arrival)
    requires AllPositive(s.pending) && PositiveArrival(arrival)
    ensures AllPositive(Woken(s, arrival).pending)
  {
  }

  function AfterTurns(turns: seq<Turn>, receiver: Receiver): (s: State)
    requires forall i | 0 <= i < |turns| :: PositiveArrival(turns[i].arrival)
    ensures AllPositive(s.pending)
  {
    if turns == [] then INITIAL
    else
      var before, turn := AfterTurns(turns[..|turns| - 1], receiver), turns[|turns| - 1];
      DrainKeepsPositive(before, turn.now, receiver);
      WokenKeepsPositive(Drained(before, turn.now, receiver), turn.arrival);
      LoopTurn(before, turn, receiver)
  }

  /** The loop, for a given course of events. */
  method SchedulerLoop(scheduler: Scheduler, turns: seq<Turn>)
    requires scheduler.Abstract() == INITIAL
    requires IsSchedule(turns)
    modifies scheduler
    ensures scheduler.Abstract() == AfterTurns(turns, scheduler.receiver)
  {
    for i := 0 to |turns|
      invariant scheduler.Abstract() == AfterTurns(turns[..i], scheduler.receiver)
    {
      assert turns[..i + 1][..i] == turns[..i] && turns[..i + 1][i] == turns[i];
      var now, arrival := turns[i].now, turns[i].arrival;
      if !scheduler.stopped {
        scheduler.DrainDue(now);
        if !scheduler.stopped {
          if scheduler.channelClosed && scheduler.pending == [] {
            scheduler.stopped := true;
          } else if !scheduler.channelClosed {
            match arrival {
              case CommandArrives(at, command) => scheduler.HandleSchedulerCommand(command, at);
              case ChannelCloses(_) => scheduler.channelClosed := true;
              case DeadlinePasses(_) =>
            }
          }
        }
      }
    }
    assert turns[..|turns|] == turns;
  }

  /** The commands that are handled in a run, and those that arrive. */
  function HandledIn(steps: seq<Step>): seq<Command> {
    if steps == [] then []
    else
      HandledIn(steps[..|steps| - 1])
      + match steps[|steps| - 1] case Handle(_, command) => [command] case _ => []
  }

  function Arrived(turns: seq<Turn>): seq<Command> {
    if turns == [] then []
    else
      Arrived(turns[..|turns| - 1])
      + match turns[|turns| - 1].arrival case CommandArrives(_, command) => [command] case _ => []
  }

  predicate Listens(s: State) {
    !s.stopped && !s.channelClosed
  }

  lemma HandledInMore(steps: seq<Step>, step: Step)
    ensures HandledIn(steps + [step]) == HandledIn(steps) + if step.Handle? then [step.command] else []
  {
    assert (steps + [step])[..|steps|] == steps;
  }

  lemma {:induction false} DrainIsRun(steps: seq<Step>, s: State, now: nat, receiver: Receiver) returns (more: seq<Step>)
    requires Runs(steps, s) && AllEnd(s.pending, now) && Clock(steps) <= now
    ensures Runs(more, Drained(s, now, receiver)) && Clock(more) <= now
    ensures HandledIn(more) == HandledIn(steps)
    ensures Listens(Drained(s, now, receiver)) ==> Listens(s)
    decreases Backlog(s.pending, now)
  {
    hide Runs, HandledIn, AllEnd, TopIndex;
    if s.stopped || !TopIsDue(s.pending, now) {
      more := steps;
    } else {
      var accepted := receiver.Accepts(|s.sent|);
      DispatchLowersBacklog(s, now, accepted);
      var step := Dispatch(now, accepted);
      RunsOn(steps, s, step);
      HandledInMore(steps, step);
      assert HandledIn(steps) + [] == HandledIn(steps);
      more := DrainIsRun(steps + [step], Dispatched(s, accepted), now, receiver);
    }
  }

  lemma RunsOn(steps: seq<Step>, s: State, step: Step)
    requires Runs(steps, s) && Enabled(s, step) && Clock(steps) <= step.now
    ensures Runs(steps + [step], Stepped(s, step)) && Clock(steps + [step]) == step.now
  {
    assert (steps + [step])[..|steps|] == steps;
  }

  /** What an arrival adds to a run. */
  lemma WokenIsRun(steps: seq<Step>, s: State, arrival: Arrival) returns (more: seq<Step>)
    requires Runs(steps, s) && Clock(steps) <= arrival.at
    ensures Runs(more, Woken(s, arrival)) && Clock(more) <= arrival.at
    ensures HandledIn(more) == HandledIn(steps) + if Listens(s) && arrival.CommandArrives? then [arrival.command] else []
    ensures Listens(Woken(s, arrival)) ==> Listens(s)
  {
    hide Runs, HandledIn;
    assert HandledIn(steps) + [] == HandledIn(steps);
    more := steps;
    if !s.stopped {
      if s.channelClosed && s.pending == [] {
        RunsOn(steps, s, Return(arrival.at));
        HandledInMore(steps, Return(arrival.at));
        more := steps + [Return(arrival.at)];
      } else if !s.channelClosed && !arrival.DeadlinePasses? {
        var step := if arrival.CommandArrives? then Handle(arrival.at, arrival.command) else Close(arrival.at);
        RunsOn(steps, s, step);
        HandledInMore(steps, step);
        more := steps + [step];
      }
    }
  }

  /**
    Main result for the loop: whatever happens, what the loop does is a run, so everything
    above holds of it.  It handles the commands in the order of their arrival, and all of
    them as long as it listens.
   */
  lemma {:induction false} LoopIsRun(turns: seq<Turn>, receiver: Receiver) returns (steps: seq<Step>)
    requires IsSchedule(turns)
    ensures Runs(steps, AfterTurns(turns, receiver))
    ensures turns == [] ==> steps == []
    ensures turns != [] ==> Clock(steps) <= turns[|turns| - 1].arrival.at
    ensures HandledIn(steps) <= Arrived(turns)
    ensures Listens(AfterTurns(turns, receiver)) ==> HandledIn(steps) == Arrived(turns)
  {
    hide Runs, Drained, Woken, HandledIn, Listens;
    if turns == [] {
      NoRun();
      return [];
    }
    var front, turn := turns[..|turns| - 1], turns[|turns| - 1];
    var before := AfterTurns(front, receiver);
    var first := LoopIsRun(front, receiver);
    var second := DrainIsRun(first, before, turn.now, receiver);
    var drained := Drained(before, turn.now, receiver);
    steps := WokenIsRun(second, drained, turn.arrival);
    assert Arrived(front) + [] == Arrived(front);
  }

  lemma NoRun()
    ensures Runs([], INITIAL) && HandledIn([]) == []
  {
  }

  // ----- What the loop leaves behind -----

  lemma {:induction false} DrainedIsNotDue(s: State, now: nat, receiver: Receiver)
    requires AllEnd(s.pending, now)
    ensures Drained(s, now, receiver).stopped || !TopIsDue(Drained(s, now, receiver).pending, now)
    decreases Backlog(s.pending, now)
  {
    if !s.stopped && TopIsDue(s.pending, now) {
      var accepted := receiver.Accepts(|s.sent|);
      DispatchLowersBacklog(s, now, accepted);
      DrainedIsNotDue(Dispatched(s, accepted), now, receiver);
    }
  }

  /** Main result: as long as the loop runs, nothing is pending that was due at its last reading of the clock. */
  lemma NothingIsOverdue(turns: seq<Turn>, receiver: Receiver)
    requires IsSchedule(turns) && turns != [] && !AfterTurns(turns, receiver).stopped
    ensures forall q | q in AfterTurns(turns, receiver).pending :: q.executeAt >= turns[|turns| - 1].now
  {
    hide Drained;
    var front, turn := turns[..|turns| - 1], turns[|turns| - 1];
    var before := AfterTurns(front, receiver);
    var drained := Drained(before, turn.now, receiver);
    DrainedIsNotDue(before, turn.now, receiver);
    if !drained.stopped {
      NotDueIsLater(drained.pending, turn.now);
    }
  }

  lemma NotDueIsLater(pending: seq<QueuedCommand>, now: nat)
    requires !TopIsDue(pending, now)
    ensures forall q | q in pending :: q.executeAt > now
  {
    forall q | q in pending
      ensures q.executeAt > now
    {
      var i :| 0 <= i < |pending| && pending[i] == q;
      assert !Precedes(pending[i], Top(pending));
    }
  }

  /** Main result: a closed loop with nothing left to send returns at once. */
  lemma ClosedLoopReturns(turns: seq<Turn>, receiver: Receiver)
    requires IsSchedule(turns) && turns != []
    requires
      var before := AfterTurns(turns[..|turns| - 1], receiver);
      before.channelClosed && before.pending == []
    ensures AfterTurns(turns, receiver).stopped
  {
  }

  // ----- Receiving -----

  /** The mailboxes that are asked, in order. */
  function Asked(steps: seq<Step>): seq<string> {
    if steps == [] then []
    else
      Asked(steps[..|steps| - 1])
      + match steps[|steps| - 1] case Handle(_, RecvIpcMessage(source)) => [source] case _ => []
  }

  function Sources(replies: seq<Reply>): seq<string> {
    seq(|replies|, i requires 0 <= i < |replies| => replies[i].source)
  }

  /** Main result: every receive is answered exactly once, in order, from the mailbox that was asked. */
  lemma {:induction false} EveryReceiveIsAnswered(steps: seq<Step>, s: State)
    requires Runs(steps, s)
    ensures Sources(s.replies) == Asked(steps)
  {
    hide TopIndex, Stepped, Enabled, Sources;
    if steps == [] {
      NoReplies(s);
    } else {
      var before := Before(steps, s);
      EveryReceiveIsAnswered(steps[..|steps| - 1], before);
      hide Runs;
      StepAnswers(before, steps[|steps| - 1]);
      assert Asked(steps[..|steps| - 1]) + [] == Asked(steps[..|steps| - 1]);
    }
  }

  lemma NoReplies(s: State)
    requires s == INITIAL
    ensures Sources(s.replies) == []
  {
  }

  lemma StepAnswers(s: State, step: Step)
    requires Enabled(s, step)
    ensures Sources(Stepped(s, step).replies)
         == Sources(s.replies) + match step case Handle(_, RecvIpcMessage(source)) => [source] case _ => []
  {
    hide TopIndex;
    assert Sources(s.replies) + [] == Sources(s.replies);
  }

  /** Main result: the answer is the first message sent there that has not been received, and none exactly when all have. */
  lemma ReceiveGetsTheNext(steps: seq<Step>, s: State, now: nat, source: string)
    requires Runs(steps, s) && steps != [] && steps[|steps| - 1] == Handle(now, RecvIpcMessage(source))
    ensures
      && s.replies != []
      && var replied := s.replies[|s.replies| - 1];
         var sent, received := SentTo(steps, source), ReceivedFrom(s.replies[..|s.replies| - 1], source);
         && replied.source == source
         && received <= sent
         && replied.message == if |received| < |sent| then Some(sent[|received|]) else None
  {
    hide TopIndex, ReceivedFrom;
    var front := steps[..|steps| - 1];
    var before := Before(steps, s);
    MailboxesAreFifo(front, before, source);
    assert SentTo(steps, source) == SentTo(front, source) + [];
    assert s.replies[..|s.replies| - 1] == before.replies;
  }
}
