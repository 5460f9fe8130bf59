/** What the states of background tasks tell, over whole runs of the machine in TaskRuns: why a task reads
    as it does, how soon a cancellation or a shutdown stops it, and that the worker is never stuck.
 */
module TaskOutcomes {
  import opened Common
  import opened TaskRuns

  // ---- why a task reads as it does

  /** What must have happened in a run for a task to read so. */
  ghost predicate Because(events: seq<Event>, status: Status, id: Id) {
    match status
    case Queued => true
    case Running => Work(BeginRunning) in events
    case Waiting => Work(EndStep(Clarification)) in events
    case Resolved => Event.CloseWaiting(id, Resolved) in events
    case Completed => Work(Look) in events
    case TimedOut => Work(EndStep(StepTimedOut)) in events
    case Failed =>
      || Work(Preflight(false)) in events || Work(EndStep(StepFailed)) in events
      || exists kept, newest :: Event.Restart(kept, newest) in events
    case Cancelled =>
      || Asked(events, id) || Event.Stop in events
      || Event.CloseWaiting(id, Cancelled) in events || Work(EndStep(StepCancelled)) in events
  }

  predicate Asked(events: seq<Event>, id: Id) {
    Event.Cancel(id) in events || Event.Interrupt(id) in events
  }

  ghost predicate Told(events: seq<Event>, s: System, id: Id) {
    && (id in s.journal ==> Because(events, s.journal[id].status, id))
    && (id in s.journal && s.journal[id].cancelRequested ==> Asked(events, id))
    && (s.stopping ==> Event.Stop in events)
    && (s.worker.RollingBack? && s.worker.id == id ==> Because(events, s.worker.verdict, id))
  }

  lemma LongerRun(events: seq<Event>, e: Event, id: Id)
    ensures forall status :: Because(events, status, id) ==> Because(events + [e], status, id)
    ensures Asked(events, id) ==> Asked(events + [e], id)
    ensures Event.Stop in events ==> Event.Stop in events + [e]
    ensures e in events + [e]
  {
    assert forall f :: f in events ==> f in events + [e];
    assert (events + [e])[|events|] == e;
  }

  lemma MovedBecause(events: seq<Event>, s: System, m: Move, id: Id)
    requires Numbered(s) && WorkerInStep(s) && Enabled(s, Work(m)) && Told(events, s, id) && s.worker.id == id
    ensures var after, all := Apply(s, Work(m)), events + [Work(m)];
      && (after.journal[id].status != s.journal[id].status ==> Because(all, after.journal[id].status, id))
      && (after.worker.RollingBack? ==> Because(all, after.worker.verdict, id))
  {
    LongerRun(events, Work(m), id);
  }

  lemma OthersUntouched(s: System, m: Move, id: Id)
    requires Numbered(s) && Enabled(s, Work(m)) && s.worker.id != id
    ensures var after := Apply(s, Work(m));
      && (id in after.journal <==> id in s.journal) && (id in s.journal ==> after.journal[id] == s.journal[id])
      && !(after.worker.RollingBack? && after.worker.id == id) && after.stopping == s.stopping
  {
  }

  lemma MoveIsTold(events: seq<Event>, s: System, m: Move, id: Id)
    requires Numbered(s) && WorkerInStep(s) && Enabled(s, Work(m)) && Told(events, s, id)
    ensures Told(events + [Work(m)], Apply(s, Work(m)), id)
  {
    hide Because, Asked;
    LongerRun(events, Work(m), id);
    if s.worker.id == id {
      MovedBecause(events, s, m, id);
    } else {
      OthersUntouched(s, m, id);
    }
  }

  lemma CallIsTold(events: seq<Event>, s: System, e: Event, id: Id)
    requires Numbered(s) && WorkerInStep(s) && Enabled(s, e) && !e.Work? && !e.Restart? && Told(events, s, id)
    ensures Told(events + [e], Apply(s, e), id)
  {
    LongerRun(events, e, id);
  }

  lemma RestartIsTold(events: seq<Event>, s: System, kept: set<Id>, newest: Id, id: Id)
    requires Enabled(s, Event.Restart(kept, newest)) && Told(events, s, id)
    ensures Told(events + [Event.Restart(kept, newest)], Apply(s, Event.Restart(kept, newest)), id)
  {
    LongerRun(events, Event.Restart(kept, newest), id);
  }

  /** Every status has its reason in the run: a task reads as it does because the worker, a caller or a
      restart did what that status says. */
  lemma {:induction false} StatusHasItsReason(events: seq<Event>, id: Id)
    requires After(events).Some?
    ensures Told(events, After(events).value, id)
  {
    hide Told, Apply, Enabled;
    if events == [] {
      ToldAtFirst(id);
    } else {
      var before, e := events[..|events| - 1], events[|events| - 1];
      assert events == before + [e];
      StatusHasItsReason(before, id);
      RunKeepsInvariant(before);
      var s := After(before).value;
      if e.Work? {
        MoveIsTold(before, s, e.move, id);
      } else if e.Restart? {
        RestartIsTold(before, s, e.kept, e.newest, id);
      } else {
        CallIsTold(before, s, e, id);
      }
    }
  }

  lemma ToldAtFirst(id: Id)
    ensures Told([], FIRST_START, id)
  {
  }

  // ---- a completed task ran every handler

  ghost predicate DoneIfCompleted(s: System, id: Id) {
    id in s.journal && s.journal[id].status == Completed ==>
      |CallsOf(s, id)| == s.journal[id].steps && !Reachable(s, id)
  }

  lemma StaysDone(s: System, e: Event, id: Id)
    requires Invariant(s) && Enabled(s, e) && DoneIfCompleted(s, id)
    ensures DoneIfCompleted(Apply(s, e), id)
  {
    hide CancelHolds, CallsInOrder;
    StepCalls(s, e, id);
    match e
    case Work(m) => MoveStaysDone(s, m, id);
    case Restart(kept, newest) =>
    case Submit(_, _) =>
    case _ => MostEventsAreCalm(s, e);
  }

  lemma MoveStaysDone(s: System, m: Move, id: Id)
    requires Invariant(s) && Enabled(s, Work(m)) && DoneIfCompleted(s, id)
    ensures DoneIfCompleted(Apply(s, Work(m)), id)
  {
    hide CancelHolds, CallsInOrder;
    StepCalls(s, Work(m), id);
  }

  /** A task that reads COMPLETED has had the handler of each of its steps called, and gets no more. */
  lemma {:induction false} CompletedMeansAllRan(events: seq<Event>, id: Id)
    requires After(events).Some? && id in After(events).value.journal
    requires After(events).value.journal[id].status == Completed
    ensures CallsOf(After(events).value, id) == UpTo(After(events).value.journal[id].steps)
    ensures !Reachable(After(events).value, id)
  {
    hide Apply, Enabled, Reachable;
    CompletedIsDone(events, id);
    HandlersRunAtMostOnceInOrder(events, id);
  }

  lemma {:induction false} CompletedIsDone(events: seq<Event>, id: Id)
    requires After(events).Some?
    ensures DoneIfCompleted(After(events).value, id)
  {
    hide Apply, Enabled, Reachable;
    if events == [] {
    } else {
      var before := events[..|events| - 1];
      CompletedIsDone(before, id);
      RunKeepsInvariant(before);
      StaysDone(After(before).value, events[|events| - 1], id);
    }
  }

  // ---- a cancellation takes effect at the next step

  /** Asked to stop, or out of the worker's reach. */
  predicate Doomed(s: System, id: Id) {
    id < s.nextId && (!Reachable(s, id) || (id in s.records && s.records[id].cancelRequested))
  }

  /** The handler calls of a task so far, and the one that may already be on its way. */
  function Due(s: System, id: Id): nat {
    |CallsOf(s, id)| + if s.worker.Executing? && s.worker.id == id then 1 else 0
  }

  lemma DoomedStays(s: System, e: Event, id: Id)
    requires Invariant(s) && Enabled(s, e) && Doomed(s, id)
    ensures Doomed(Apply(s, e), id) && Due(Apply(s, e), id) <= Due(s, id)
  {
    hide CancelHolds, CallsInOrder;
    StepCalls(s, e, id);
    match e
    case Work(m) => MoveStaysDoomed(s, m, id);
    case Restart(kept, newest) => RestartKeepsCounter(s, kept, newest);
    case Submit(_, _) =>
    case _ => MostEventsAreCalm(s, e);
  }

  lemma MoveStaysDoomed(s: System, m: Move, id: Id)
    requires Invariant(s) && Enabled(s, Work(m)) && Doomed(s, id)
    ensures Doomed(Apply(s, Work(m)), id) && Due(Apply(s, Work(m)), id) <= Due(s, id)
  {
    hide CancelHolds, CallsInOrder;
    StepCalls(s, Work(m), id);
  }

  /** After a cancellation at most one more handler of the task is called, the one already on its way,
      whatever happens then: more moves, other callers, a shutdown, restarts. */
  lemma {:induction false} CancelStopsSoon(before: seq<Event>, more: seq<Event>, id: Id)
    requires After(before).Some? && After(before + more).Some? && Doomed(After(before).value, id)
    ensures Doomed(After(before + more).value, id)
    ensures Due(After(before + more).value, id) <= Due(After(before).value, id)
    ensures |CallsOf(After(before + more).value, id)| <= |CallsOf(After(before).value, id)| + 1
    decreases |more|
  {
    hide Apply, Enabled, Invariant, Doomed;
    if more == [] {
      assert before + more == before;
    } else {
      var last := |more| - 1;
      assert (before + more)[..|before| + last] == before + more[..last];
      assert (before + more)[|before| + last] == more[last];
      CancelStopsSoon(before, more[..last], id);
      RunKeepsInvariant(before + more[..last]);
      DoomedStays(After(before + more[..last]).value, more[last], id);
    }
  }

  /** `cancel` and `stop` doom every task they find that is not closed yet. */
  lemma CancelDooms(events: seq<Event>, e: Event, id: Id)
    requires After(events).Some? && Enabled(After(events).value, e)
    requires (e == Event.Cancel(id) && !Closed(After(events).value.records[id].status))
      || (e == Event.Interrupt(id) && After(events).value.records[id].status in {Queued, Running})
    ensures After(events + [e]).Some? && Doomed(After(events + [e]).value, id)
  {
    RunKeepsInvariant(events);
    Extend(events, e);
  }

  /** A task cancelled while it reads QUEUED never has a handler called, whatever happens then. */
  lemma CancelledWhileQueued(before: seq<Event>, more: seq<Event>, id: Id)
    requires After(before).Some? && id in After(before).value.records
    requires After(before).value.records[id].status == Queued && id in After(before).value.listed
    requires After(before + [Event.Cancel(id)] + more).Some?
    ensures CallsOf(After(before + [Event.Cancel(id)] + more).value, id) == []
  {
    hide After, Doomed;
    RunKeepsInvariant(before);
    var s := After(before).value;
    CancelDooms(before, Event.Cancel(id), id);
    Extend(before, Event.Cancel(id));
    NothingDue(s, id);
    CancelStopsSoon(before + [Event.Cancel(id)], more, id);
  }

  lemma NothingDue(s: System, id: Id)
    requires Invariant(s) && id in s.records && s.records[id].status == Queued && id in s.listed
    ensures Due(Apply(s, Event.Cancel(id)), id) == 0
  {
    hide CancelHolds, QueueIsFresh;
    assert CallsFit(s, id);
  }

  // ---- nothing runs unchecked

  /** How often the final preflight let a step of the task pass. */
  ghost function Passed(events: seq<Event>, id: Id): nat
    requires After(events).Some?
  {
    if events == [] then 0
    else
      var last := |events| - 1;
      Passed(events[..last], id) +
        if events[last] == Work(Preflight(true)) && After(events[..last]).value.worker.id == id then 1 else 0
  }

  ghost predicate PassedSoFar(s: System, id: Id, passed: nat) {
    && (s.worker.Checking? && s.worker.id == id ==> s.worker.passed <= passed)
    && (id in s.preflighted ==> id in s.journal && s.journal[id].steps <= passed)
  }

  lemma PassesOneMore(s: System, e: Event, id: Id, passed: nat)
    requires Numbered(s) && Enabled(s, e) && PassedSoFar(s, id, passed)
    ensures PassedSoFar(Apply(s, e), id, passed + if e == Work(Preflight(true)) && s.worker.id == id then 1 else 0)
  {
  }

  lemma {:induction false} PassesAreCounted(events: seq<Event>, id: Id)
    requires After(events).Some?
    ensures PassedSoFar(After(events).value, id, Passed(events, id))
  {
    hide Apply, Enabled, Invariant, PassedSoFar;
    if events == [] {
      NothingChecked(id);
    } else {
      var last := |events| - 1;
      PassesAreCounted(events[..last], id);
      RunKeepsInvariant(events[..last]);
      InvariantNumbers(After(events[..last]).value);
      PassesOneMore(After(events[..last]).value, events[last], id, Passed(events[..last], id));
    }
  }

  lemma NothingChecked(id: Id)
    ensures PassedSoFar(After([]).value, id, 0)
  {
  }

  lemma InvariantNumbers(s: System)
    requires Invariant(s)
    ensures Numbered(s)
  {
  }

  /** Before the first handler of a task is called, the final preflight has let as many steps pass as it has. */
  lemma NothingRunsUnchecked(events: seq<Event>, id: Id)
    requires After(events).Some? && CallsOf(After(events).value, id) != []
    ensures id in After(events).value.journal && Passed(events, id) >= After(events).value.journal[id].steps
  {
    hide After, Passed, CancelHolds, QueueIsFresh;
    RunKeepsInvariant(events);
    PassesAreCounted(events, id);
    assert CallsFit(After(events).value, id);
  }

  // ---- the steps done are counted

  /** The count of completed steps is that of the handlers called, or one less while the last of them has not
      succeeded. */
  ghost predicate Counted(s: System, id: Id) {
    && (id in s.journal ==> s.journal[id].completed <= |CallsOf(s, id)| <= s.journal[id].completed + 1)
    && (id in s.journal && s.journal[id].status == Completed ==> s.journal[id].completed == s.journal[id].steps)
    && (!s.worker.Idle? && s.worker.id == id && id in s.journal ==>
          match s.worker
          case Looking(_, step) => s.journal[id].completed == step
          case Executing(_, step) => s.journal[id].completed == step
          case InHandler(_, step) => s.journal[id].completed == step
          case _ => true)
  }

  lemma MoveCounts(s: System, m: Move, id: Id)
    requires Invariant(s) && Enabled(s, Work(m)) && Counted(s, id)
    ensures Counted(Apply(s, Work(m)), id)
  {
    hide CancelHolds, QueueIsFresh;
    StepCalls(s, Work(m), id);
    assert CallsFit(s, id);
    if s.worker.id != id {
      OthersUntouched(s, m, id);
    }
  }

  lemma EventCounts(s: System, e: Event, id: Id)
    requires Invariant(s) && Enabled(s, e) && Counted(s, id) && !e.Work?
    ensures Counted(Apply(s, e), id)
  {
    hide CancelHolds, CallsInOrder, WorkerInStep;
    StepCalls(s, e, id);
  }

  /** In every run: no step counts as completed whose handler was not called, at most the last handler called
      does not, and a task that reads COMPLETED has all its steps completed. */
  lemma {:induction false} StepsAreCounted(events: seq<Event>, id: Id)
    requires After(events).Some?
    ensures Counted(After(events).value, id)
  {
    hide Apply, Enabled, Invariant, Counted;
    if events == [] {
      NothingCounted(id);
    } else {
      var last := |events| - 1;
      StepsAreCounted(events[..last], id);
      RunKeepsInvariant(events[..last]);
      match events[last]
      case Work(m) => MoveCounts(After(events[..last]).value, m, id);
      case _ => EventCounts(After(events[..last]).value, events[last], id);
    }
  }

  lemma NothingCounted(id: Id)
    ensures Counted(After([]).value, id)
  {
  }

  // ---- the worker is never stuck

  /** A task in hand can always be moved on, and an idle worker takes the next one if there is one. */
  lemma TheWorkerGoesOn(events: seq<Event>) returns (e: Event)
    requires After(events).Some?
    requires !After(events).value.worker.Idle? || After(events).value.queue != []
    ensures Enabled(After(events).value, e) && (e.Fetch? || e.Work?)
  {
    hide CancelHolds, QueueIsFresh, CallsInOrder;
    RunKeepsInvariant(events);
    var s := After(events).value;
    e := match s.worker
      case Idle => Fetch
      case Fetched(_) => Work(BeginTask)
      case Checking(_, passed) => Work(if passed < InHand(s).steps then Preflight(true) else BeginRunning)
      case Looking(_, _) => Work(Look)
      case Executing(_, _) => Work(CallHandler)
      case InHandler(_, _) => Work(EndStep(Success))
      case RollingBack(_, _) => Work(EndRollback);
  }
}
