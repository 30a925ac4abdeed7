/**
  Where everything the scheduler has sent comes from: over a whole run without a
  shutdown, each schedule command accounts for the messages at its own deadline and then
  every cadence, and for at most one entry that is still pending.
 */
module SchedulerHistory {
  import opened Schedulers
  import opened SchedulerDrain
  import opened SchedulerRuns

  /** What a handled schedule command asks for: an action, first at a given time. */
  datatype Series = Series(first: nat, action: Action) {
    /** The n-th time, counted from 0. */
    function Time(n: nat): nat {
      first + n * if action.cadence.Some? then action.cadence.value else 0
    }
  }

  function SeriesOf(steps: seq<Step>): seq<Series> {
    if steps == [] then []
    else
      SeriesOf(steps[..|steps| - 1])
      + match steps[|steps| - 1]
        case Handle(now, Schedule(action, delay)) => [Series(now + delay, action)]
        case _ => []
  }

  /** The first `count` messages of a series. */
  function SentFor(series: Series, count: nat): multiset<Due> {
    if count == 0 then multiset{}
    else SentFor(series, count - 1) + multiset{Due(series.Time(count - 1), series.action)}
  }

  /** The entry of a series that is pending after `count` messages; a one-shot is over after its one message. */
  function PendingFor(series: Series, count: nat): multiset<Due> {
    if series.action.cadence.None? && count > 0 then multiset{} else multiset{Due(series.Time(count), series.action)}
  }

  function AllSent(series: seq<Series>, counts: seq<nat>): multiset<Due>
    requires |counts| == |series|
  {
    if series == [] then multiset{}
    else
      var n := |series| - 1;
      AllSent(series[..n], counts[..n]) + SentFor(series[n], counts[n])
  }

  function AllPending(series: seq<Series>, counts: seq<nat>): multiset<Due>
    requires |counts| == |series|
  {
    if series == [] then multiset{}
    else
      var n := |series| - 1;
      AllPending(series[..n], counts[..n]) + PendingFor(series[n], counts[n])
  }

  ghost predicate Counts(series: seq<Series>, counts: seq<nat>) {
    |counts| == |series| && forall i | 0 <= i < |series| && series[i].action.cadence.None? :: counts[i] <= 1
  }

  /** What is pending in place of an entry that has been dispatched. */
  function Again(due: Due): multiset<Due> {
    match due.action.cadence
    case Some(cadence) => multiset{Due(due.at + cadence, due.action)}
    case None => multiset{}
  }

  lemma Snoc(series: seq<Series>, counts: seq<nat>, last: Series, count: nat)
    requires |counts| == |series|
    ensures AllSent(series + [last], counts + [count]) == AllSent(series, counts) + SentFor(last, count)
    ensures AllPending(series + [last], counts + [count]) == AllPending(series, counts) + PendingFor(last, count)
  {
    assert (series + [last])[..|series|] == series && (counts + [count])[..|counts|] == counts;
  }

  lemma Cancel(a: multiset<Due>, b: multiset<Due>, due: Due)
    requires a + multiset{due} == b + multiset{due}
    ensures a == b
  {
    assert a == a + multiset{due} - multiset{due};
    assert b == b + multiset{due} - multiset{due};
  }

  /** A due entry moves from what is pending to what has been sent. */
  ghost predicate Moves(sent: multiset<Due>, pending: multiset<Due>, due: Due,
                        sentAfter: multiset<Due>, pendingAfter: multiset<Due>) {
    sentAfter == sent + multiset{due} && pendingAfter + multiset{due} == pending + Again(due)
  }

  lemma MovesBeside(sent: multiset<Due>, pending: multiset<Due>, due: Due, sentAfter: multiset<Due>, pendingAfter: multiset<Due>,
                    otherSent: multiset<Due>, otherPending: multiset<Due>)
    requires Moves(sent, pending, due, sentAfter, pendingAfter)
    ensures Moves(otherSent + sent, otherPending + pending, due, otherSent + sentAfter, otherPending + pendingAfter)
    ensures Moves(sent + otherSent, pending + otherPending, due, sentAfter + otherSent, pendingAfter + otherPending)
  {
    var one, again := multiset{due}, Again(due);
    assert otherSent + (sent + one) == otherSent + sent + one;
    assert sent + one + otherSent == sent + otherSent + one;
    assert otherPending + (pendingAfter + one) == otherPending + pendingAfter + one;
    assert otherPending + (pending + again) == otherPending + pending + again;
    assert pendingAfter + otherPending + one == pendingAfter + one + otherPending;
    assert pending + again + otherPending == pending + otherPending + again;
  }

  /** One more message of the series whose entry was pending. */
  lemma {:induction false} OneMore(series: seq<Series>, counts: seq<nat>, due: Due) returns (after: seq<nat>)
    requires Counts(series, counts) && due in AllPending(series, counts)
    ensures Counts(series, after)
    ensures Moves(AllSent(series, counts), AllPending(series, counts), due, AllSent(series, after), AllPending(series, after))
  {
    hide SentFor, PendingFor, Moves;
    var n := |series| - 1;
    var last, count := series[n], counts[n];
    if due in PendingFor(last, count) {
      after := counts[n := count + 1];
      assert after[..n] == counts[..n];
      OneMoreOf(last, count, due);
      MovesBeside(SentFor(last, count), PendingFor(last, count), due, SentFor(last, count + 1), PendingFor(last, count + 1),
                  AllSent(series[..n], counts[..n]), AllPending(series[..n], counts[..n]));
    } else {
      var more := OneMore(series[..n], counts[..n], due);
      after := more + [count];
      assert after[..n] == more;
      MovesBeside(AllSent(series[..n], counts[..n]), AllPending(series[..n], counts[..n]), due,
                  AllSent(series[..n], more), AllPending(series[..n], more), SentFor(last, count), PendingFor(last, count));
    }
  }

  lemma OneMoreOf(series: Series, count: nat, due: Due)
    requires due in PendingFor(series, count)
    ensures series.action.cadence.None? ==> count == 0
    ensures Moves(SentFor(series, count), PendingFor(series, count), due, SentFor(series, count + 1), PendingFor(series, count + 1))
  {
    if series.action.cadence.Some? {
      var cadence := series.action.cadence.value;
      assert (count + 1) * cadence == count * cadence + cadence;
    }
  }

  lemma NewSeries(series: seq<Series>, counts: seq<nat>, first: Series)
    requires Counts(series, counts)
    ensures Counts(series + [first], counts + [0])
    ensures AllSent(series + [first], counts + [0]) == AllSent(series, counts)
    ensures AllPending(series + [first], counts + [0]) == AllPending(series, counts) + multiset{Due(first.first, first.action)}
  {
    hide AllSent, AllPending;
    Snoc(series, counts, first, 0);
    assert first.Time(0) == first.first;
  }

  /** Everything is accepted and nothing shuts the scheduler down. */
  ghost predicate Undisturbed(steps: seq<Step>) {
    forall step | step in steps ::
      (step.Dispatch? ==> step.accepted) && !(step.Handle? && step.command.Shutdown?)
  }

  ghost predicate Accounts(s: State, series: seq<Series>, counts: seq<nat>) {
    && Counts(series, counts)
    && Sum(Slot(), s.sent) == AllSent(series, counts)
    && Sum(Slot(), s.pending) == AllPending(series, counts)
  }

  lemma DispatchAccounts(s: State, series: seq<Series>, counts: seq<nat>) returns (after: seq<nat>)
    requires s.pending != [] && Accounts(s, series, counts)
    ensures Accounts(Dispatched(s, true), series, after)
  {
    hide Sum, AllSent, AllPending;
    var queued, rest, next := Top(s.pending), WithoutTop(s.pending), Dispatched(s, true);
    var due := Due(queued.executeAt, queued.action);
    SumWithoutTop(Slot(), s.pending);
    assert due in multiset{due};
    after := OneMore(series, counts, due);
    SumSplit(Slot(), s.sent, [queued]);
    SumOne(Slot(), queued);
    assert Sum(Slot(), next.pending) == Sum(Slot(), rest) + Again(due) by {
      if queued.action.cadence.Some? {
        var again := QueuedCommand(queued.executeAt + queued.action.cadence.value, s.nextSequence, queued.action);
        SumSplit(Slot(), rest, [again]);
        SumOne(Slot(), again);
      }
    }
    Cancel(AllPending(series, after), Sum(Slot(), next.pending), due);
  }

  lemma ScheduleAccounts(s: State, series: seq<Series>, counts: seq<nat>, now: nat, action: Action, delay: nat)
    requires Accounts(s, series, counts)
    ensures Accounts(Handled(s, Schedule(action, delay), now), series + [Series(now + delay, action)], counts + [0])
  {
    hide Sum, AllSent, AllPending, Counts;
    var entry := QueuedCommand(now + delay, s.nextSequence, action);
    NewSeries(series, counts, Series(now + delay, action));
    SumSplit(Slot(), s.pending, [entry]);
    SumOne(Slot(), entry);
  }

  lemma OtherAccounts(s: State, step: Step, series: seq<Series>, counts: seq<nat>)
    requires Enabled(s, step) && Accounts(s, series, counts)
    requires !step.Dispatch? && !(step.Handle? && (step.command.Schedule? || step.command.Shutdown?))
    ensures Accounts(Stepped(s, step), series, counts)
  {
    hide Accounts;
    var next := Stepped(s, step);
    assert next.sent == s.sent && next.pending == s.pending;
    SameAccounts(s, next, series, counts);
  }

  lemma SameAccounts(s: State, t: State, series: seq<Series>, counts: seq<nat>)
    requires Accounts(s, series, counts) && t.sent == s.sent && t.pending == s.pending
    ensures Accounts(t, series, counts)
  {
  }

  /**
    Main result: over a whole run there is a count for every schedule command such that
    the messages sent are exactly the first so many of each series, and what is pending is
    exactly the next one of each series that is not over.
   */
  lemma {:induction false} RunsAccount(steps: seq<Step>, s: State) returns (counts: seq<nat>)
    requires Runs(steps, s) && Undisturbed(steps)
    ensures Accounts(s, SeriesOf(steps), counts)
  {
    hide Accounts, Stepped, Enabled, Dispatched, Handled;
    if steps == [] {
      NothingAccounts(s);
      return [];
    }
    var front, last := steps[..|steps| - 1], steps[|steps| - 1];
    assert last in steps && forall step | step in front :: step in steps;
    var before := Before(steps, s);
    counts := RunsAccount(front, before);
    assert SeriesOf(front) + [] == SeriesOf(front);
    match last {
      case Dispatch(now, accepted) =>
        DispatchStep(before, last);
        counts := DispatchAccounts(before, SeriesOf(front), counts);
      case Handle(now, Schedule(action, delay)) =>
        ScheduleStep(before, last);
        ScheduleAccounts(before, SeriesOf(front), counts, now, action, delay);
        counts := counts + [0];
      case _ =>
        OtherAccounts(before, last, SeriesOf(front), counts);
    }
  }

  lemma NothingAccounts(s: State)
    requires s == INITIAL
    ensures Accounts(s, [], [])
  {
  }

  lemma DispatchStep(s: State, step: Step)
    requires Enabled(s, step) && step.Dispatch? && step.accepted
    ensures s.pending != [] && Stepped(s, step) == Dispatched(s, true)
  {
  }

  lemma ScheduleStep(s: State, step: Step)
    requires Enabled(s, step) && step.Handle?
    ensures Stepped(s, step) == Handled(s, step.command, step.now)
  {
  }
}
