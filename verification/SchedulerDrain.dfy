/**
  What one drain of the scheduler dispatches and what it leaves behind, as sums
  over the entries that were pending: recurring entries come due at their deadline
  and then every cadence, without drift.
 */
module SchedulerDrain {
  import opened Schedulers

  /** An action that is due at a certain time. */
  datatype Due = Due(at: nat, action: Action)

  function Sum(f: QueuedCommand -> multiset<Due>, entries: seq<QueuedCommand>): multiset<Due> {
    if entries == [] then multiset{} else Sum(f, entries[..|entries| - 1]) + f(entries[|entries| - 1])
  }

  /** The entries themselves, forgetting their sequence numbers. */
  function Slot(): QueuedCommand -> multiset<Due> {
    (q: QueuedCommand) => multiset{Due(q.executeAt, q.action)}
  }

  /** Everything an entry with deadline `at` comes due for up to `now`. */
  function OwedFrom(at: nat, action: Action, now: nat): multiset<Due>
    decreases if at > now then 0 else now - at + 1
  {
    if at > now then multiset{}
    else
      match action.cadence
      case None => multiset{Due(at, action)}
      case Some(cadence) =>
        multiset{Due(at, action)} + if cadence == 0 then multiset{} else OwedFrom(at + cadence, action, now)
  }

  function Owed(now: nat): QueuedCommand -> multiset<Due> {
    (q: QueuedCommand) => OwedFrom(q.executeAt, q.action, now)
  }

  /** What is still pending of an entry after everything due up to `now` has been dispatched. */
  function LeftFrom(at: nat, action: Action, now: nat): multiset<Due>
    decreases if at > now then 0 else now - at + 1
  {
    if at > now then multiset{Due(at, action)}
    else
      match action.cadence
      case None => multiset{}
      case Some(cadence) => if cadence == 0 then multiset{} else LeftFrom(at + cadence, action, now)
  }

  function Left(now: nat): QueuedCommand -> multiset<Due> {
    (q: QueuedCommand) => LeftFrom(q.executeAt, q.action, now)
  }

  lemma {:induction false} SumSplit(f: QueuedCommand -> multiset<Due>, left: seq<QueuedCommand>, right: seq<QueuedCommand>)
    ensures Sum(f, left + right) == Sum(f, left) + Sum(f, right)
  {
    if right == [] {
      assert left + right == left;
    } else {
      assert (left + right)[..|left + right| - 1] == left + right[..|right| - 1];
      SumSplit(f, left, right[..|right| - 1]);
    }
  }

  lemma SumOne(f: QueuedCommand -> multiset<Due>, q: QueuedCommand)
    ensures Sum(f, [q]) == f(q)
  {
    assert [q][..0] == [];
  }

  lemma SumWithoutTop(f: QueuedCommand -> multiset<Due>, pending: seq<QueuedCommand>)
    requires pending != []
    ensures Sum(f, pending) == Sum(f, WithoutTop(pending)) + f(Top(pending))
  {
    hide Sum;
    var i := TopIndex(pending);
    var before, after := pending[..i], pending[i + 1..];
    TopSplits(pending);
    SumOne(f, Top(pending));
    SumSplit(f, before + [Top(pending)], after);
    SumSplit(f, before, [Top(pending)]);
    SumSplit(f, before, after);
  }

  /** One dispatch moves one due action from what is owed to what has been sent. */
  lemma DispatchPaysOne(s: State, now: nat, accepted: bool)
    requires AllEnd(s.pending, now) && TopIsDue(s.pending, now)
    ensures Sum(Owed(now), s.pending) == multiset{Due(Top(s.pending).executeAt, Top(s.pending).action)}
                                         + Sum(Owed(now), Dispatched(s, accepted).pending)
    ensures Sum(Left(now), s.pending) == Sum(Left(now), Dispatched(s, accepted).pending)
  {
    hide Sum, OwedFrom, LeftFrom;
    var queued, rest := Top(s.pending), WithoutTop(s.pending);
    assert queued in s.pending && PositiveCadence(queued.action);
    SumWithoutTop(Owed(now), s.pending);
    SumWithoutTop(Left(now), s.pending);
    FirstIsOwed(queued, now);
    if queued.action.cadence.Some? {
      var next := QueuedCommand(queued.executeAt + queued.action.cadence.value, s.nextSequence, queued.action);
      assert Dispatched(s, accepted).pending == rest + [next];
      SumSplit(Owed(now), rest, [next]);
      SumSplit(Left(now), rest, [next]);
      SumOne(Owed(now), next);
      SumOne(Left(now), next);
    } else {
      assert Dispatched(s, accepted).pending == rest;
    }
  }

  /** A due entry owes itself and what its next one owes. */
  lemma FirstIsOwed(q: QueuedCommand, now: nat)
    requires q.executeAt <= now && PositiveCadence(q.action)
    ensures
      match q.action.cadence
      case None => OwedFrom(q.executeAt, q.action, now) == multiset{Due(q.executeAt, q.action)}
                   && LeftFrom(q.executeAt, q.action, now) == multiset{}
      case Some(cadence) =>
        && OwedFrom(q.executeAt, q.action, now)
           == multiset{Due(q.executeAt, q.action)} + OwedFrom(q.executeAt + cadence, q.action, now)
        && LeftFrom(q.executeAt, q.action, now) == LeftFrom(q.executeAt + cadence, q.action, now)
  {
  }

  lemma {:induction false} NothingDue(pending: seq<QueuedCommand>, now: nat)
    requires forall q | q in pending :: q.executeAt > now
    ensures Sum(Owed(now), pending) == multiset{} && Sum(Left(now), pending) == Sum(Slot(), pending)
  {
    if pending != [] {
      var front, last := pending[..|pending| - 1], pending[|pending| - 1];
      assert last in pending;
      NothingDue(front, now);
      assert Owed(now)(last) == multiset{} && Left(now)(last) == Slot()(last);
    }
  }

  lemma NotDueMeansLater(pending: seq<QueuedCommand>, now: nat)
    requires !TopIsDue(pending, now)
    ensures forall q | q in pending :: q.executeAt > now
  {
    if pending != [] {
      forall q | q in pending
        ensures q.executeAt > now
      {
        var i :| 0 <= i < |pending| && pending[i] == q;
        assert !Precedes(pending[i], pending[TopIndex(pending)]);
      }
    }
  }

  /**
    Main result for a drain: the messages sent are exactly those that were owed, and
    what stays pending is exactly what is left of the entries, all of it in the future.
   */
  lemma {:induction false} DrainSendsWhatIsOwed(s: State, now: nat, receiver: Receiver) returns (news: seq<QueuedCommand>)
    requires AllEnd(s.pending, now) && !s.stopped && receiver.limit.None?
    ensures
      var r := Drained(s, now, receiver);
      && !r.stopped && r.channelClosed == s.channelClosed && r.mailboxes == s.mailboxes && r.replies == s.replies
      && r.sent == s.sent + news
      && |news| == Backlog(s.pending, now)
      && Sum(Slot(), news) == Sum(Owed(now), s.pending)
      && Sum(Slot(), r.pending) == Sum(Left(now), s.pending)
      && forall q | q in r.pending :: q.executeAt > now
    decreases Backlog(s.pending, now)
  {
    hide Sum, Backlog;
    if !TopIsDue(s.pending, now) {
      news := [];
      NotDueMeansLater(s.pending, now);
      NothingDue(s.pending, now);
      NoBacklog(s.pending, now);
      SumNothing(Slot());
    } else {
      DispatchLowersBacklog(s, now, true);
      DispatchPaysOne(s, now, true);
      var more := DrainSendsWhatIsOwed(Dispatched(s, true), now, receiver);
      var first := Top(s.pending);
      news := [first] + more;
      SumSplit(Slot(), [first], more);
      SumOne(Slot(), first);
      assert s.sent + ([first] + more) == s.sent + [first] + more;
    }
  }

  lemma SumNothing(f: QueuedCommand -> multiset<Due>)
    ensures Sum(f, []) == multiset{}
  {
  }

  lemma {:induction false} NoBacklog(pending: seq<QueuedCommand>, now: nat)
    requires AllEnd(pending, now) && forall q | q in pending :: q.executeAt > now
    ensures Backlog(pending, now) == 0
  {
    if pending != [] {
      assert pending[|pending| - 1] in pending;
      NoBacklog(pending[..|pending| - 1], now);
    }
  }

  // ----- Closed forms -----

  /** The times at, at + cadence, at + 2 cadence, ... */
  predicate IsTimeOf(at: nat, cadence: nat, t: nat)
    requires cadence > 0
  {
    at <= t && (t - at) % cadence == 0
  }

  lemma TimesStep(at: nat, cadence: nat, t: nat)
    requires cadence > 0
    ensures IsTimeOf(at, cadence, t) <==> t == at || IsTimeOf(at + cadence, cadence, t)
    ensures IsTimeOf(at + cadence, cadence, t) ==> t != at
  {
    if at + cadence <= t {
      ModStep(t - at, cadence);
    } else if at <= t {
      DivUnique(t - at, cadence, 0, t - at);
      assert cadence * 0 == 0;
      assert t - at == cadence * ((t - at) / cadence) + (t - at) % cadence;
    }
  }

  lemma ModStep(n: nat, c: nat)
    requires 0 < c <= n
    ensures n % c == (n - c) % c
  {
    DivStep(n, c);
    var q := (n - c) / c;
    assert n == c * (n / c) + n % c;
    assert n - c == c * q + (n - c) % c;
    assert c * (q + 1) == c * q + c;
  }

  /** A recurring entry comes due once at each of its times up to now, and at no other time. */
  lemma {:induction false} OwedTimes(at: nat, action: Action, now: nat, t: nat)
    requires action.cadence.Some? && action.cadence.value > 0
    ensures OwedFrom(at, action, now)[Due(t, action)]
         == if t <= now && IsTimeOf(at, action.cadence.value, t) then 1 else 0
    decreases if at > now then 0 else now - at + 1
  {
    var cadence := action.cadence.value;
    TimesStep(at, cadence, t);
    if at <= now {
      hide IsTimeOf;
      OwedTimes(at + cadence, action, now, t);
    }
  }

  lemma {:induction false} OwedOnlyItself(at: nat, action: Action, now: nat, other: Due)
    requires PositiveCadence(action) && other.action != action
    ensures OwedFrom(at, action, now)[other] == 0
    decreases if at > now then 0 else now - at + 1
  {
    if at <= now && action.cadence.Some? {
      OwedOnlyItself(at + action.cadence.value, action, now, other);
    }
  }

  /** The number of times is the number the backlog counts: floor((now - at) / cadence) + 1. */
  lemma {:induction false} OwedCount(q: QueuedCommand, now: nat)
    requires Ends(q, now)
    ensures |OwedFrom(q.executeAt, q.action, now)| == Occurrences(q, now)
    decreases if q.executeAt > now then 0 else now - q.executeAt + 1
  {
    if q.executeAt <= now && q.action.cadence.Some? {
      var next := q.(executeAt := q.executeAt + q.action.cadence.value);
      RearmedOccurrences(q, q.sequence, now);
      OwedCount(next, now);
    }
  }

  /** Exactly one entry is left of a recurring schedule: the first of its times after `now`. */
  lemma {:induction false} LeftIsNextTime(at: nat, action: Action, now: nat)
    requires action.cadence.Some? && action.cadence.value > 0 && at <= now
    ensures
      var cadence := action.cadence.value;
      var next := at + ((now - at) / cadence + 1) * cadence;
      LeftFrom(at, action, now) == multiset{Due(next, action)} && now < next <= now + cadence
    decreases now - at
  {
    var cadence := action.cadence.value;
    var n := (now - at) / cadence;
    assert now - at == cadence * n + (now - at) % cadence;
    assert (n + 1) * cadence == cadence * n + cadence;
    if at + cadence <= now {
      LeftIsNextTime(at + cadence, action, now);
      DivStep(now - at, cadence);
      assert (n + 1) * cadence == cadence + n * cadence;
    } else {
      DivUnique(now - at, cadence, 0, now - at);
      assert LeftFrom(at + cadence, action, now) == multiset{Due(at + cadence, action)};
    }
  }

  // ----- When a drain ends -----

  /** The state after at most n dispatches at a fixed time, stopping early when nothing is due. */
  function AfterDispatches(s: State, now: nat, n: nat): State
    decreases n
  {
    if n == 0 || !TopIsDue(s.pending, now) then s else AfterDispatches(Dispatched(s, true), now, n - 1)
  }

  ghost predicate DrainEnds(s: State, now: nat) {
    exists n: nat :: !TopIsDue(AfterDispatches(s, now, n).pending, now)
  }

  ghost predicate IsStuck(q: QueuedCommand, now: nat) {
    !Ends(q, now)
  }

  ghost predicate HasStuck(pending: seq<QueuedCommand>, now: nat) {
    exists q :: q in pending && IsStuck(q, now)
  }

  lemma StuckIsDue(pending: seq<QueuedCommand>, now: nat)
    requires HasStuck(pending, now)
    ensures TopIsDue(pending, now)
  {
    if !TopIsDue(pending, now) {
      NotDueMeansLater(pending, now);
      assert false;
    }
  }

  /** A due entry with zero cadence is replaced by one that is just as due. */
  lemma StuckStays(s: State, now: nat)
    requires HasStuck(s.pending, now)
    ensures s.pending != [] && HasStuck(Dispatched(s, true).pending, now)
  {
    var q :| q in s.pending && IsStuck(q, now);
    var top, after := Top(s.pending), Dispatched(s, true).pending;
    TopSplits(s.pending);
    if q in WithoutTop(s.pending) {
      assert q in after;
    } else {
      assert q == top;
      assert after[|after| - 1] == QueuedCommand(q.executeAt, s.nextSequence, q.action);
      assert IsStuck(after[|after| - 1], now);
    }
  }

  lemma {:induction false} StuckForever(s: State, now: nat, n: nat)
    requires HasStuck(s.pending, now)
    ensures TopIsDue(AfterDispatches(s, now, n).pending, now)
    decreases n
  {
    hide HasStuck, Dispatched, TopIsDue;
    StuckIsDue(s.pending, now);
    if n > 0 {
      StuckStays(s, now);
      StuckForever(Dispatched(s, true), now, n - 1);
    }
  }

  lemma {:induction false} BacklogBoundsDrain(s: State, now: nat)
    requires AllEnd(s.pending, now)
    ensures !TopIsDue(AfterDispatches(s, now, Backlog(s.pending, now)).pending, now)
    decreases Backlog(s.pending, now)
  {
    hide Backlog;
    if TopIsDue(s.pending, now) {
      DispatchLowersBacklog(s, now, true);
      BacklogBoundsDrain(Dispatched(s, true), now);
    }
  }

  /** Main result: a drain ends exactly when no entry that is due has a zero cadence. */
  lemma DrainEndsIffPositive(s: State, now: nat)
    ensures DrainEnds(s, now) <==> AllEnd(s.pending, now)
  {
    if AllEnd(s.pending, now) {
      BacklogBoundsDrain(s, now);
    } else {
      var q :| q in s.pending && !Ends(q, now);
      assert IsStuck(q, now);
      forall n: nat
        ensures TopIsDue(AfterDispatches(s, now, n).pending, now)
      {
        StuckForever(s, now, n);
      }
    }
  }
}
