/**
  The deadline scheduler (crates/quine-core/src/scheduler.rs): a priority queue of
  scheduled messages, recurring entries that re-arm themselves, and mailboxes.
  Instants and durations are natural numbers.
 */
module Schedulers {
  import opened Wrappers
  import opened SessionTrees

  datatype Action = UserMessage(sessionId: SessionId, content: string, cadence: Option<nat>)

  datatype QueuedCommand = QueuedCommand(executeAt: nat, sequence: nat, action: Action)

  datatype Command =
    | Schedule(action: Action, delay: nat)
    | SendIpcMessage(target: string, content: string)
    | RecvIpcMessage(source: string)
    | Shutdown

  datatype Reply = Reply(source: string, message: Option<string>)

  datatype Ordering = Less | Equal | Greater

  function CompareNat(a: nat, b: nat): Ordering {
    if a < b then Less else if a == b then Equal else Greater
  }

  /** The order of the heap: the operands are swapped, so the greatest entry is the earliest. */
  function Compare(a: QueuedCommand, b: QueuedCommand): Ordering {
    match CompareNat(b.executeAt, a.executeAt)
    case Equal => CompareNat(b.sequence, a.sequence)
    case unequal => unequal
  }

  /** Earlier deadline first; among equal deadlines, first scheduled first. */
  predicate Precedes(a: QueuedCommand, b: QueuedCommand) {
    a.executeAt < b.executeAt || (a.executeAt == b.executeAt && a.sequence < b.sequence)
  }

  lemma GreatestIsEarliest(a: QueuedCommand, b: QueuedCommand)
    ensures Compare(a, b) == Greater <==> Precedes(a, b)
    ensures Compare(a, b) == Equal <==> a.executeAt == b.executeAt && a.sequence == b.sequence
  {
  }

  /** The position of a greatest entry, which is what the heap hands out. */
  function TopIndex(pending: seq<QueuedCommand>): (index: nat)
    requires pending != []
    ensures index < |pending|
    ensures forall i | 0 <= i < |pending| :: !Precedes(pending[i], pending[index])
  {
    if |pending| == 1 then 0
    else
      var best := TopIndex(pending[..|pending| - 1]);
      if Compare(pending[|pending| - 1], pending[best]) == Greater then |pending| - 1 else best
  }

  function Top(pending: seq<QueuedCommand>): QueuedCommand
    requires pending != []
  {
    pending[TopIndex(pending)]
  }

  function WithoutTop(pending: seq<QueuedCommand>): seq<QueuedCommand>
    requires pending != []
  {
    pending[..TopIndex(pending)] + pending[TopIndex(pending) + 1..]
  }

  function Mailbox(mailboxes: map<string, seq<string>>, name: string): seq<string> {
    if name in mailboxes then mailboxes[name] else []
  }

  /** The scheduler as a value: its own variables, what it has sent and answered, and whether its loop has returned. */
  datatype State = State(
    pending: seq<QueuedCommand>,
    nextSequence: nat,
    mailboxes: map<string, seq<string>>,
    channelClosed: bool,
    stopped: bool,
    sent: seq<QueuedCommand>,
    replies: seq<Reply>)

  const INITIAL := State([], 0, map[], false, false, [], [])

  function Handled(s: State, command: Command, now: nat): State {
    match command
    case Schedule(action, delay) =>
      s.(pending := s.pending + [QueuedCommand(now + delay, s.nextSequence, action)],
         nextSequence := s.nextSequence + 1)
    case SendIpcMessage(target, content) =>
      s.(mailboxes := s.mailboxes[target := Mailbox(s.mailboxes, target) + [content]])
    case RecvIpcMessage(source) =>
      var messages := Mailbox(s.mailboxes, source);
      if messages == [] then s.(replies := s.replies + [Reply(source, None)])
      else s.(mailboxes := s.mailboxes[source := messages[1..]],
              replies := s.replies + [Reply(source, Some(messages[0]))])
    case Shutdown => s.(pending := [], channelClosed := true)
  }

  /** A recurring entry is queued again one cadence after its own deadline, not after the current time. */
  function Rearm(s: State, queued: QueuedCommand): State {
    match queued.action.cadence
    case None => s
    case Some(cadence) =>
      s.(pending := s.pending + [QueuedCommand(queued.executeAt + cadence, s.nextSequence, queued.action)],
         nextSequence := s.nextSequence + 1)
  }

  /** Taking the top entry, re-arming it and sending it; the loop returns when the receiver is gone. */
  function Dispatched(s: State, accepted: bool): State
    requires s.pending != []
  {
    var queued := Top(s.pending);
    var armed := Rearm(s.(pending := WithoutTop(s.pending)), queued);
    if accepted then armed.(sent := s.sent + [queued]) else armed.(stopped := true)
  }

  predicate TopIsDue(pending: seq<QueuedCommand>, now: nat) {
    pending != [] && Top(pending).executeAt <= now
  }

  // ----- How much one drain has to do -----

  predicate PositiveCadence(action: Action) {
    action.cadence.Some? ==> action.cadence.value > 0
  }

  /** An entry that is not due yet does not take part in a drain, so its cadence does not matter. */
  predicate Ends(q: QueuedCommand, now: nat) {
    q.executeAt <= now ==> PositiveCadence(q.action)
  }

  predicate AllEnd(pending: seq<QueuedCommand>, now: nat) {
    forall q | q in pending :: Ends(q, now)
  }

  /** How often an entry comes due up to `now`. */
  function Occurrences(q: QueuedCommand, now: nat): nat
    requires Ends(q, now)
  {
    if q.executeAt > now then 0
    else match q.action.cadence case None => 1 case Some(cadence) => (now - q.executeAt) / cadence + 1
  }

  function Backlog(pending: seq<QueuedCommand>, now: nat): nat
    requires AllEnd(pending, now)
  {
    if pending == [] then 0
    else
      assert pending[|pending| - 1] in pending;
      Backlog(pending[..|pending| - 1], now) + Occurrences(pending[|pending| - 1], now)
  }

  lemma DivStep(n: nat, c: nat)
    requires 0 < c <= n
    ensures n / c == (n - c) / c + 1
  {
    var q, r := (n - c) / c, (n - c) % c;
    assert n - c == c * q + r;
    assert n == c * (q + 1) + r by {
      assert c * (q + 1) == c * q + c;
    }
    DivUnique(n, c, q + 1, r);
  }

  lemma DivUnique(n: nat, c: nat, q: nat, r: nat)
    requires 0 < c && r < c && n == c * q + r
    ensures n / c == q
  {
    var q', r' := n / c, n % c;
    assert n == c * q' + r';
    if q < q' {
      MulMonotone(c, q, q');
    } else if q' < q {
      MulMonotone(c, q', q);
    }
  }

  lemma MulMonotone(c: nat, a: nat, b: nat)
    requires a < b
    ensures c * a + c <= c * b
  {
    var d := b - a - 1;
    assert c * b == c * a + c + c * d;
  }

  /** The re-armed entry has exactly one occurrence less. */
  lemma RearmedOccurrences(q: QueuedCommand, sequence: nat, now: nat)
    requires PositiveCadence(q.action) && q.action.cadence.Some? && q.executeAt <= now
    ensures Occurrences(QueuedCommand(q.executeAt + q.action.cadence.value, sequence, q.action), now) + 1
         == Occurrences(q, now)
  {
    var cadence := q.action.cadence.value;
    if q.executeAt + cadence <= now {
      DivStep(now - q.executeAt, cadence);
    } else {
      DivUnique(now - q.executeAt, cadence, 0, now - q.executeAt);
    }
  }

  lemma {:induction false} BacklogSplit(left: seq<QueuedCommand>, right: seq<QueuedCommand>, now: nat)
    requires AllEnd(left, now) && AllEnd(right, now)
    ensures AllEnd(left + right, now)
    ensures Backlog(left + right, now) == Backlog(left, now) + Backlog(right, now)
  {
    if right == [] {
      assert left + right == left;
    } else {
      var front, last := right[..|right| - 1], right[|right| - 1];
      assert last in right;
      assert forall q | q in front :: q in right;
      BacklogSplit(left, front, now);
      assert (left + right)[..|left + right| - 1] == left + front;
      assert (left + right)[|left + right| - 1] == last;
    }
  }

  /** The pending entries are the ones before the top, the top, and the ones after it. */
  lemma TopSplits(pending: seq<QueuedCommand>)
    requires pending != []
    ensures
      var i := TopIndex(pending);
      pending == pending[..i] + [Top(pending)] + pending[i + 1..]
  {
  }

  /** Each dispatch of a due entry lowers the backlog by one, so a drain ends. */
  lemma DispatchLowersBacklog(s: State, now: nat, accepted: bool)
    requires AllEnd(s.pending, now) && TopIsDue(s.pending, now)
    ensures AllEnd(Dispatched(s, accepted).pending, now)
    ensures Backlog(Dispatched(s, accepted).pending, now) + 1 == Backlog(s.pending, now)
  {
    hide Backlog, Occurrences;
    var queued := Top(s.pending);
    BacklogWithoutTop(s.pending, now);
    if queued.action.cadence.Some? {
      var next := QueuedCommand(queued.executeAt + queued.action.cadence.value, s.nextSequence, queued.action);
      RearmedOccurrences(queued, s.nextSequence, now);
      BacklogOne(next, now);
      BacklogSplit(WithoutTop(s.pending), [next], now);
    } else {
      OneOccurrence(queued, now);
    }
  }

  lemma OneOccurrence(q: QueuedCommand, now: nat)
    requires q.action.cadence.None? && q.executeAt <= now
    ensures Occurrences(q, now) == 1
  {
  }

  lemma BacklogWithoutTop(pending: seq<QueuedCommand>, now: nat)
    requires pending != [] && AllEnd(pending, now)
    ensures Ends(Top(pending), now) && AllEnd(WithoutTop(pending), now)
    ensures Backlog(pending, now) == Backlog(WithoutTop(pending), now) + Occurrences(Top(pending), now)
  {
    hide Backlog, Occurrences;
    var i, queued := TopIndex(pending), Top(pending);
    var before, after := pending[..i], pending[i + 1..];
    TopSplits(pending);
    assert queued in pending;
    BacklogOne(queued, now);
    BacklogSplit(before, [queued], now);
    BacklogSplit(before + [queued], after, now);
    BacklogSplit(before, after, now);
  }

  lemma BacklogOne(q: QueuedCommand, now: nat)
    requires Ends(q, now)
    ensures AllEnd([q], now) && Backlog([q], now) == Occurrences(q, now)
  {
    assert [q][..0] == [];
  }

  // ----- The scheduler -----

  /** The receiving core accepts a number of messages and is then gone, or accepts all of them. */
  datatype Receiver = Receiver(limit: Option<nat>) {
    predicate Accepts(sent: nat) {
      limit.None? || sent < limit.value
    }
  }

  /** Dispatching everything due at `now`, one entry after another. */
  function Drained(s: State, now: nat, receiver: Receiver): State
    requires AllEnd(s.pending, now)
    decreases Backlog(s.pending, now)
  {
    if s.stopped || !TopIsDue(s.pending, now) then s
    else
      var accepted := receiver.Accepts(|s.sent|);
      DispatchLowersBacklog(s, now, accepted);
      Drained(Dispatched(s, accepted), now, receiver)
  }

  class Scheduler {
    const receiver: Receiver
    var pending: seq<QueuedCommand>
    var nextSequence: nat
    var ipcMailboxes: map<string, seq<string>>
    var channelClosed: bool
    var stopped: bool
    var sent: seq<QueuedCommand>
    var replies: seq<Reply>

    ghost function Abstract(): State
      reads this
    {
      State(pending, nextSequence, ipcMailboxes, channelClosed, stopped, sent, replies)
    }

    constructor (receiver: Receiver)
      ensures this.receiver == receiver && Abstract() == INITIAL
    {
      this.receiver := receiver;
      pending, nextSequence, ipcMailboxes := [], 0, map[];
      channelClosed, stopped, sent, replies := false, false, [], [];
    }

    method HandleSchedulerCommand(command: Command, now: nat)
      modifies this
      ensures Abstract() == Handled(old(Abstract()), command, now)
    {
      match command {
        case Schedule(action, delay) =>
          pending := pending + [QueuedCommand(now + delay, nextSequence, action)];
          nextSequence := nextSequence + 1;
        case SendIpcMessage(target, content) =>
          if target !in ipcMailboxes {
            ipcMailboxes := ipcMailboxes[target := []];
          }
          ipcMailboxes := ipcMailboxes[target := ipcMailboxes[target] + [content]];
          assert ipcMailboxes == old(ipcMailboxes)[target := Mailbox(old(ipcMailboxes), target) + [content]];
        case RecvIpcMessage(source) =>
          var message := None;
          if source in ipcMailboxes && ipcMailboxes[source] != [] {
            message := Some(ipcMailboxes[source][0]);
            ipcMailboxes := ipcMailboxes[source := ipcMailboxes[source][1..]];
          }
          replies := replies + [Reply(source, message)];
        case Shutdown =>
          pending := [];
          channelClosed := true;
      }
    }

    method DispatchScheduledAction(queued: QueuedCommand) returns (ok: bool)
      modifies this
      ensures ok == receiver.Accepts(|old(sent)|)
      ensures Abstract() == Rearm(old(Abstract()), queued).(sent := if ok then old(sent) + [queued] else old(sent))
    {
      match queued.action.cadence {
        case Some(cadence) =>
          pending := pending + [QueuedCommand(queued.executeAt + cadence, nextSequence, queued.action)];
          nextSequence := nextSequence + 1;
        case None =>
      }
      ok := receiver.Accepts(|sent|);
      if ok {
        sent := sent + [queued];
      }
    }

    /** The inner loop: `now` is read once, before it starts. */
    method DrainDue(now: nat)
      requires AllEnd(pending, now) && !stopped
      modifies this
      ensures Abstract() == Drained(old(Abstract()), now, receiver)
      ensures AllEnd(pending, now)
    {
      while TopIsDue(pending, now)
        invariant AllEnd(pending, now) && !stopped
        invariant Drained(Abstract(), now, receiver) == Drained(old(Abstract()), now, receiver)
        decreases Backlog(pending, now)
      {
        ghost var before := Abstract();
        DispatchLowersBacklog(before, now, receiver.Accepts(|sent|));
        var queued := Top(pending);
        pending := WithoutTop(pending);
        var ok := DispatchScheduledAction(queued);
        if !ok {
          stopped := true;
          return;
        }
      }
    }
  }
}
