/** The task manager object of ron/agent/task_manager.py: its fields, its methods, and the worker
    thread's `_execute`, with any calls of other threads wherever no lock keeps them out.

    The object remembers all that has happened to it, and is always where that run of the machine
    in TaskRuns has come; so everything proved there of all runs holds of the object.
 */
module TaskManager {
  import opened Common
  import opened TaskRuns

  class AgentTaskManager {
    const maximumTasks: nat
    const retainedTasks: nat
    var records: map<Id, Task>       // every record alive, those taken out of `_tasks` included
    var listed: set<Id>
    var queue: seq<Option<Id>>       // None is what `stop` leaves for the worker
    var nextId: Id
    var stopping: bool
    var journal: map<Id, Task>
    ghost var rest: System           // the worker's place and the record of handler calls
    ghost var trace: seq<Event>      // all that has happened

    ghost function View(): System
      reads this
    {
      rest.(records := records, listed := listed, queue := Tasks(queue), nextId := nextId, stopping := stopping,
        journal := journal)
    }

    ghost predicate Valid()
      reads this
    {
      1 <= retainedTasks <= maximumTasks && After(trace) == Some(View())
    }

    constructor (maximumTasks: nat, retainedTasks: nat)
      requires 1 <= retainedTasks <= maximumTasks <= 100
      ensures Valid() && trace == [] && this.maximumTasks == maximumTasks && this.retainedTasks == retainedTasks
    {
      this.maximumTasks, this.retainedTasks := maximumTasks, retainedTasks;
      records, listed, queue, nextId, stopping, journal := map[], {}, [], 1, false, map[];
      rest, trace := FIRST_START, [];
    }

    /** What a run promises holds of the object. */
    lemma Known()
      requires Valid()
      ensures Invariant(View()) && Numbered(View())
    {
      hide Numbered, QueueIsFresh, CallsInOrder, WorkerInStep, CancelHolds;
      RunKeepsInvariant(trace);
    }

    /** What is known of the task in the worker's hand. */
    lemma InHandKnown()
      requires Valid() && !rest.worker.Idle?
      ensures var id := rest.worker.id;
        && id in records && id in journal && journal[id] == records[id] && id !in Tasks(queue)
        && WorkerFits(rest.worker, records[id], |CallsOf(View(), id)|)
    {
      hide CancelHolds;
      Known();
      assert CallsFit(View(), rest.worker.id);
    }

    /** Enter in the trace what a section has just done. */
    ghost method Note(before: System, e: Event)
      requires 1 <= retainedTasks <= maximumTasks && After(trace) == Some(before)
      requires Enabled(before, e) && View() == Apply(before, e)
      modifies this`trace
      ensures Valid() && trace == old(trace) + [e]
    {
      hide Enabled, Apply;
      Extend(trace, e);
      trace := trace + [e];
    }

    /** `_save`, with the record it saves. */
    method Put(id: Id, t: Task)
      modifies this`records, this`journal
      ensures records == old(records)[id := t] && journal == old(journal)[id := t]
    {
      records := records[id := t];
      journal := journal[id := t];
    }

    /** `_trim_locked`: the oldest closed tasks go, the newest `retainedTasks` of them stay. */
    method Trim() returns (trimmed: set<Id>)
      requires listed <= records.Keys
      modifies this`listed
      ensures trimmed <= ClosedIn(records, old(listed)) && listed == old(listed) - trimmed
      ensures forall id, kept | id in trimmed && kept in ClosedIn(records, listed) :: id < kept
      ensures |ClosedIn(records, listed)| ==
        if |ClosedIn(records, old(listed))| <= retainedTasks then |ClosedIn(records, old(listed))| else retainedTasks
    {
      trimmed := {};
      var closed := ClosedIn(records, listed);
      while |closed| > retainedTasks
        invariant trimmed <= ClosedIn(records, old(listed)) && listed == old(listed) - trimmed
        invariant closed == ClosedIn(records, listed)
        invariant forall id, kept | id in trimmed && kept in closed :: id < kept
        invariant trimmed != {} ==> |closed| >= retainedTasks
        invariant trimmed == {} ==> closed == ClosedIn(records, old(listed))
        invariant |closed| <= |ClosedIn(records, old(listed))|
        decreases closed
      {
        var oldest := Least(closed);
        closed, trimmed, listed := closed - {oldest}, trimmed + {oldest}, listed - {oldest};
      }
    }

    /** `start`: nothing while the worker thread is alive; a new one begins with the flag cleared. */
    method StartWorker() returns (ghost begun: seq<Event>)
      requires Valid()
      modifies this`stopping, this`trace
      ensures Valid() && trace == old(trace) + begun && begun in {[], [Event.Start]}
      ensures stopping ==> old(stopping)
    {
      hide After, Invariant, Tasks;
      var alive: bool := *;
      if alive {
        return [];
      }
      ghost var before := View();
      stopping := false;
      Note(before, Event.Start);
      return [Event.Start];
    }

    /** `submit` of a validated plan; None when the queue is full, what `stop` left there included. The
        number is a new one. */
    method Submit(steps: nat) returns (id: Option<Id>, ghost begun: seq<Event>, ghost trimmed: set<Id>)
      requires 1 <= steps <= 4 && Valid()
      modifies this
      ensures Valid() && rest == old(rest) && begun in {[], [Event.Start]}
      ensures trace == old(trace) + begun + if id.None? then [] else [Event.Submit(steps, trimmed)]
      ensures id == if |old(queue)| >= maximumTasks then None else Some(old(nextId))
      ensures queue == if id.None? then old(queue) else old(queue) + [id]
      ensures id.None? ==> records == old(records) && listed == old(listed) && journal == old(journal)
      ensures id.Some? ==> id.value !in old(journal) && id.value in records && records[id.value].status == Queued
      ensures forall id | id in old(records) :: id in records && records[id] == old(records)[id]
    {
      hide After, Invariant, Tasks;
      begun := StartWorker();
      if |queue| >= maximumTasks {
        return None, begun, {};
      }
      var number;
      number, trimmed := Enqueue(steps);
      return Some(number), begun, trimmed;
    }

    /** The rest of `submit`, under the lock. */
    method Enqueue(steps: nat) returns (number: Id, ghost trimmed: set<Id>)
      requires 1 <= steps <= 4 && Valid()
      modifies this
      ensures Valid() && rest == old(rest) && trace == old(trace) + [Event.Submit(steps, trimmed)]
      ensures number == old(nextId) && queue == old(queue) + [Some(number)]
      ensures number !in old(journal) && number in records && records[number].status == Queued
      ensures forall id | id in old(records) :: id in records && records[id] == old(records)[id]
    {
      hide After, Invariant, Tasks;
      Known();
      ghost var before := View();
      number := nextId;
      nextId := nextId + 1;
      Put(number, Task(steps, Queued, 0, false, false));
      listed := listed + {number};
      trimmed := Trim();
      TasksAppend(queue, Some(number));
      queue := queue + [Some(number)];
      Note(before, Event.Submit(steps, trimmed));
    }

    /** `cancel`; false for a task that is not listed. A task cancelled while queued runs nothing. */
    method Cancel(id: Id) returns (known: bool)
      requires Valid()
      modifies this
      ensures Valid() && rest.worker == old(rest.worker) && rest.calls == old(rest.calls)
      ensures known <==> id in old(listed)
      ensures trace == if known then old(trace) + [Event.Cancel(id)] else old(trace)
      ensures known ==> id in records && (Closed(records[id].status) || records[id].cancelRequested)
      ensures Others(old(records), records, id)
      ensures known && old(records)[id].status == Queued ==>
        records[id].status == Cancelled && CallsOf(View(), id) == []
      ensures SameSteps(old(records), records)
    {
      hide After, Invariant, Tasks;
      if id !in listed {
        return false;
      }
      Known();
      ghost var before := View();
      var t := records[id];
      if t.status in {Queued, Waiting} {
        Put(id, t.(cancelRequested := true, status := Cancelled));
        if t.status == Queued {
          rest := rest.(cancelledQueued := rest.cancelledQueued + {id});
        }
      } else if !Closed(t.status) {
        Put(id, t.(cancelRequested := true));
      }
      Note(before, Event.Cancel(id));
      NothingRanWhileQueued(before, id);
      return true;
    }

    /** `close_waiting`. */
    method CloseWaiting(id: Id, verdict: Status) returns (known: bool)
      requires Valid() && verdict in {Resolved, Cancelled}
      modifies this
      ensures Valid() && rest == old(rest)
      ensures known <==> id in old(listed)
      ensures trace == if known then old(trace) + [Event.CloseWaiting(id, verdict)] else old(trace)
      ensures known ==> id in records && records[id].status != Waiting
      ensures Others(old(records), records, id)
      ensures known && old(records)[id].status == Waiting ==> records[id] == old(records)[id].(status := verdict)
      ensures known && old(records)[id].status != Waiting ==> records == old(records)
      ensures SameSteps(old(records), records)
    {
      hide After, Invariant, Tasks;
      if id !in listed {
        return false;
      }
      Known();
      ghost var before := View();
      if records[id].status == Waiting {
        Put(id, records[id].(status := verdict));
      }
      Note(before, Event.CloseWaiting(id, verdict));
      return true;
    }

    /** `stop`: the flag, then the records listed at that moment, one lock after the other, while
        other threads go on; at the end a mark in the queue for the worker, if there is room. Each of
        the records was asked to stop unless it was queued or running no more. */
    method Stop()
      requires Valid()
      modifies this
      ensures Valid() && rest.worker == old(rest.worker) && rest.calls == old(rest.calls)
      ensures forall id | id in old(listed) :: id in records && Asked(records[id])
    {
      hide After, Invariant, Asked;
      SetStop();
      Known();
      var left := listed;
      ghost var reached: set<Id> := {};
      while left != {}
        invariant Valid() && rest.worker == old(rest.worker) && rest.calls == old(rest.calls)
        invariant left !! reached && left + reached == old(listed) && left <= records.Keys
        invariant forall id | id in reached :: id in records && Asked(records[id])
        decreases left
      {
        var id :| id in left;
        left := left - {id};
        OtherThreads(false);
        Interrupt(id);
        reached := reached + {id};
      }
      MarkQueue();
    }

    /** `put_nowait(None)`. The mark takes a place in the queue, and is no task. */
    method MarkQueue()
      requires Valid()
      modifies this`queue
      ensures Valid() && View() == old(View())
      ensures queue == if |old(queue)| < maximumTasks then old(queue) + [None] else old(queue)
    {
      hide After, Tasks;
      if |queue| < maximumTasks {
        TasksAppend(queue, None);
        queue := queue + [None];
      }
    }

    /** The first thing `stop` does. */
    method SetStop()
      requires Valid()
      modifies this`stopping, this`trace
      ensures Valid() && trace == old(trace) + [Event.Stop] && stopping
    {
      hide After, Invariant, Tasks;
      ghost var before := View();
      stopping := true;
      Note(before, Event.Stop);
    }

    /** `stop` on one record, under its lock. */
    method Interrupt(id: Id)
      requires Valid() && id in records
      modifies this
      ensures Valid() && rest == old(rest) && trace == old(trace) + [Event.Interrupt(id)]
      ensures records.Keys == old(records.Keys) && Asked(records[id])
      ensures forall other | other in records && other != id :: records[other] == old(records)[other]
      ensures SameSteps(old(records), records)
    {
      hide After, Invariant, Tasks;
      Known();
      ghost var before := View();
      if records[id].status in {Queued, Running} {
        Put(id, records[id].(cancelRequested := true));
      }
      Note(before, Event.Interrupt(id));
    }

    // ---- other threads

    /** Any number of calls from other threads, at a moment when they can get in; none if the worker is left
        alone. */
    method OtherThreads(alone: bool)
      requires Valid()
      modifies this
      ensures alone ==> trace == old(trace) && View() == old(View())
      ensures Valid() && rest.worker == old(rest.worker) && rest.calls == old(rest.calls)
      ensures SameSteps(old(records), records)
      ensures forall id | id in old(records) && Asked(old(records)[id]) :: id in records && Asked(records[id])
    {
      hide After, Invariant, Enabled, Apply;
      var calls: int := *;
      if alone {
        return;
      }
      while calls > 0
        invariant Valid() && rest.worker == old(rest.worker) && rest.calls == old(rest.calls)
        invariant SameSteps(old(records), records)
        invariant forall id | id in old(records) && Asked(old(records)[id]) :: id in records && Asked(records[id])
      {
        OneCall();
        calls := calls - 1;
      }
    }

    /** One call of another thread. */
    method OneCall()
      requires Valid()
      modifies this
      ensures Valid() && rest.worker == old(rest.worker) && rest.calls == old(rest.calls)
      ensures SameSteps(old(records), records)
      ensures forall id | id in old(records) && Asked(old(records)[id]) :: id in records && Asked(records[id])
    {
      hide After, Invariant, Enabled, Apply;
      var id: Id := *;
      var what: int := *;
      if what == 0 {
        var steps: nat := *;
        if 1 <= steps <= 4 {
          var _, _, _ := Submit(steps);
        }
      } else if what == 1 {
        var _ := Cancel(id);
      } else if what == 2 {
        var resolved: bool := *;
        var _ := CloseWaiting(id, if resolved then Resolved else Cancelled);
      } else if what == 3 {
        SetStop();
      } else if what == 4 {
        var _ := StartWorker();
      } else if what == 5 {
        MarkQueue();
      } else if id in records {
        Interrupt(id);
      }
    }

    // ---- the worker thread

    /** The worker takes the next thing from the queue: a task, or the mark at which it ends. */
    method Fetch() returns (id: Option<Id>)
      requires Valid() && rest.worker.Idle? && queue != []
      modifies this
      ensures Valid() && id == old(queue)[0] && queue == old(queue)[1..]
      ensures id.None? ==> trace == old(trace) && View() == old(View())
      ensures id.Some? ==> trace == old(trace) + [Event.Fetch] && rest.worker == Fetched(id.value)
      ensures id.Some? ==> id.value in records && CallsOf(View(), id.value) == []
    {
      hide After;
      Known();
      ghost var before := View();
      id := queue[0];
      queue := queue[1..];
      if id.None? {
        return;
      }
      rest := rest.(worker := Fetched(id.value));
      Note(before, Event.Fetch);
      assert id.value in before.queue;
    }

    /** The look at the record before the final preflight. */
    method FirstLook(id: Id) returns (goOn: bool)
      requires Valid() && rest.worker == Fetched(id)
      modifies this`records, this`journal, this`rest, this`trace
      ensures Valid() && trace == old(trace) + [Work(BeginTask)] && records == old(records)
        && rest.calls == old(rest.calls)
      ensures id in records && (goOn <==> !records[id].cancelRequested && records[id].status != Cancelled)
      ensures rest.worker == if goOn then Checking(id, 0) else Idle
      ensures !goOn ==> !Reachable(View(), id)
    {
      hide After, Invariant, Tasks, WorkerInStep, Numbered, QueueIsFresh;
      InHandKnown();
      ghost var before := View();
      goOn := !(records[id].status == Cancelled || records[id].cancelRequested);
      KeepSaved(id);
      rest := rest.(worker := if goOn then Checking(id, 0) else Idle);
      Note(before, Work(BeginTask));
    }

    /** A record that is not changed stays as it was saved. */
    lemma KeepSaved(id: Id)
      requires id in records && id in journal && journal[id] == records[id]
      ensures records[id := records[id]] == records && journal[id := records[id]] == journal
    {
    }

    /** One step of the final preflight. No tool of the task has run; after a failure none ever will,
        whatever the record read before. */
    method FinalPreflight(id: Id, passed: nat, ready: bool)
      requires Valid() && rest.worker == Checking(id, passed) && id in records && passed < records[id].steps
      modifies this`records, this`journal, this`rest, this`trace
      ensures Valid() && trace == old(trace) + [Work(Preflight(ready))] && rest.calls == old(rest.calls)
      ensures CallsOf(View(), id) == [] && SameSteps(old(records), records)
      ensures ready ==> records == old(records) && rest.worker == Checking(id, passed + 1)
      ensures !ready ==> records[id].status == Failed && !Reachable(View(), id) && rest.worker.Idle?
    {
      hide After, Invariant, Tasks, WorkerInStep, Numbered, QueueIsFresh;
      InHandKnown();
      ghost var before := View();
      if !ready {
        Put(id, records[id].(status := Failed));
      } else {
        KeepSaved(id);
      }
      rest := rest.(worker := if ready then Checking(id, passed + 1) else Idle);
      Note(before, Work(Preflight(ready)));
    }

    /** After the last preflight the record reads RUNNING whatever it read before, but a cancellation
        asked for stays asked for, and still no tool has run. */
    method StartRunning(id: Id)
      requires Valid() && id in records && rest.worker == Checking(id, records[id].steps)
      modifies this`records, this`journal, this`rest, this`trace
      ensures Valid() && trace == old(trace) + [Work(BeginRunning)] && rest.calls == old(rest.calls)
      ensures id in records && records[id] == old(records)[id].(status := Running) && SameSteps(old(records), records)
      ensures rest.worker == Looking(id, 0) && CallsOf(View(), id) == []
    {
      hide After, Invariant, Tasks, WorkerInStep, Numbered, QueueIsFresh;
      InHandKnown();
      ghost var before := View();
      Put(id, records[id].(status := Running));
      rest := rest.(worker := Looking(id, 0), preflighted := rest.preflighted + {id});
      Note(before, Work(BeginRunning));
    }

    /** The look before a step, or the end after the last one: exactly the steps before it have run. */
    method LookBeforeStep(id: Id, step: nat) returns (runIt: bool)
      requires Valid() && rest.worker == Looking(id, step)
      modifies this`records, this`journal, this`rest, this`trace
      ensures Valid() && trace == old(trace) + [Work(Look)] && rest.calls == old(rest.calls)
      ensures id in old(records) && id in records && SameSteps(old(records), records)
      ensures |CallsOf(View(), id)| == step <= records[id].steps
      ensures records[id].cancelRequested == old(records)[id].cancelRequested
      ensures runIt <==> step < records[id].steps && !old(records)[id].cancelRequested && !stopping
      ensures step == records[id].steps ==>
        records[id].status == Completed && rest.worker.Idle? && !Reachable(View(), id)
      ensures step < records[id].steps ==>
        rest.worker == if runIt then Executing(id, step) else RollingBack(id, Cancelled)
    {
      hide After, Invariant, Tasks, WorkerInStep, Numbered, QueueIsFresh;
      InHandKnown();
      ghost var before := View();
      runIt := false;
      if step >= records[id].steps {
        Put(id, records[id].(status := Completed));
        rest := rest.(worker := Idle);
      } else {
        KeepSaved(id);
        runIt := !records[id].cancelRequested && !stopping;
        rest := rest.(worker := if runIt then Executing(id, step) else RollingBack(id, Cancelled));
      }
      Note(before, Work(Look));
    }

    /** `registry.execute` comes to call the step's handler: the next one of the task, never one twice. */
    ghost method CallHandler(id: Id, step: nat)
      requires Valid() && rest.worker == Executing(id, step)
      modifies this`rest, this`trace
      ensures Valid() && trace == old(trace) + [Work(Move.CallHandler)]
      ensures id in records && rest.worker == InHandler(id, step)
      ensures CallsOf(View(), id) == CallsOf(old(View()), id) + [step] && |CallsOf(View(), id)| == step + 1
    {
      hide After, Invariant, Tasks, WorkerInStep, Numbered, QueueIsFresh;
      InHandKnown();
      ghost var before := View();
      KeepSaved(id);
      rest := rest.(worker := InHandler(id, step), calls := rest.calls[id := CallsOf(before, id) + [step]]);
      Note(before, Work(Move.CallHandler));
    }

    /** What a step's result leads to. A success counts exactly the handlers that ran; after anything
        else no further handler is next. */
    method EndStep(id: Id, step: nat, end: StepEnd)
      requires Valid()
      requires rest.worker == InHandler(id, step)
        || (rest.worker == Executing(id, step) && !(end in {Success, Clarification}))
      modifies this`records, this`journal, this`rest, this`trace
      ensures Valid() && trace == old(trace) + [Work(Move.EndStep(end))] && rest.calls == old(rest.calls)
      ensures id in old(records) && id in records && SameSteps(old(records), records)
      ensures |CallsOf(View(), id)| <= step + 1
      ensures records[id].cancelRequested == old(records)[id].cancelRequested
      ensures end == Success ==> rest.worker == Looking(id, step + 1) && records[id].completed == |CallsOf(View(), id)|
      ensures end == Clarification ==> rest.worker.Idle? && records[id].status == Waiting && !Reachable(View(), id)
      ensures !(end in {Success, Clarification}) ==>
        rest.worker == RollingBack(id, Verdict(end)) && records == old(records)
    {
      hide After, Invariant, Tasks, WorkerInStep, Numbered, QueueIsFresh;
      InHandKnown();
      ghost var before := View();
      if end == Success {
        Put(id, records[id].(completed := step + 1));
      } else if end == Clarification {
        Put(id, records[id].(status := Waiting));
      } else {
        KeepSaved(id);
      }
      rest := rest.(worker :=
        if end == Success then Looking(id, step + 1)
        else if end == Clarification then Idle else RollingBack(id, Verdict(end)));
      Note(before, Work(Move.EndStep(end)));
    }

    /** The record after compensation: closed, and out of the worker's reach for good. */
    method EndRollback(id: Id, verdict: Status)
      requires Valid() && rest.worker == RollingBack(id, verdict)
      modifies this`records, this`journal, this`rest, this`trace
      ensures Valid() && trace == old(trace) + [Work(Move.EndRollback)] && rest.calls == old(rest.calls)
      ensures rest.worker.Idle? && id in records && records[id].status == verdict && Closed(verdict)
        && !Reachable(View(), id)
      ensures SameSteps(old(records), records)
    {
      hide After, Invariant, Tasks, WorkerInStep, Numbered, QueueIsFresh;
      InHandKnown();
      ghost var before := View();
      Put(id, records[id].(status := verdict));
      rest := rest.(worker := Idle);
      Note(before, Work(Move.EndRollback));
    }

    /** The final preflight of all steps. */
    method PreflightAll(id: Id, alone: bool) returns (ready: bool)
      requires Valid() && rest.worker == Checking(id, 0)
      modifies this
      ensures Valid()
      ensures ready ==> id in records && rest.worker == Checking(id, records[id].steps)
      ensures !ready ==> rest.worker.Idle? && !Reachable(View(), id)
      ensures alone ==> ready && records == old(records) && stopping == old(stopping)
    {
      hide After, Enabled, Apply, Invariant, Reachable;
      InHandKnown();
      var passed := 0;
      while passed < records[id].steps
        invariant Valid() && rest.worker == Checking(id, passed) && id in records && passed <= records[id].steps
        invariant alone ==> records == old(records) && stopping == old(stopping)
        decreases records[id].steps - passed
      {
        OtherThreads(alone);
        ready := *;
        ready := ready || alone;
        FinalPreflight(id, passed, ready);
        if !ready {
          return;
        }
        passed := passed + 1;
      }
      return true;
    }

    /** The steps of a task that passed its final preflight. */
    method RunSteps(id: Id, alone: bool)
      requires Valid() && id in records && rest.worker == Checking(id, records[id].steps)
      modifies this
      ensures Valid() && rest.worker.Idle? && !Reachable(View(), id)
      ensures alone && !old(stopping) && !old(records)[id].cancelRequested ==> Finished(id, old(records)[id].steps)
    {
      hide After, Invariant, Enabled, Apply, Reachable, Asked;
      OtherThreads(alone);
      StartRunning(id);
      ghost var free := alone && !old(stopping) && !old(records)[id].cancelRequested;
      var step := 0;
      while true
        invariant Valid() && rest.worker == Looking(id, step) && id in records && step <= records[id].steps
        invariant records[id].steps == old(records)[id].steps
        invariant free ==> !stopping && !records[id].cancelRequested
        decreases records[id].steps - step
      {
        var goOn := RunStep(id, step, alone);
        if !goOn {
          return;
        }
        step := step + 1;
      }
    }

    /** Completed, with every handler called. */
    ghost predicate Finished(id: Id, steps: nat)
      reads this
    {
      id in records && records[id].status == Completed && |CallsOf(View(), id)| == steps
    }

    /** One round of the steps; false when the task is left. */
    method RunStep(id: Id, step: nat, alone: bool) returns (goOn: bool)
      requires Valid() && rest.worker == Looking(id, step) && id in records
      modifies this
      ensures Valid() && SameSteps(old(records), records)
      ensures goOn ==> rest.worker == Looking(id, step + 1) && step < records[id].steps
      ensures !goOn ==> rest.worker.Idle? && !Reachable(View(), id)
      ensures alone && !old(stopping) && !old(records)[id].cancelRequested ==>
        && id in records && !stopping && !records[id].cancelRequested
        && (goOn || Finished(id, old(records)[id].steps))
    {
      hide After, Invariant, Enabled, Apply, Reachable, Asked, WorkerFits;
      OtherThreads(alone);
      var runIt := LookBeforeStep(id, step);
      if !runIt {
        if step < records[id].steps {
          OtherThreads(alone);
          EndRollback(id, Cancelled);
        }
        return false;
      }
      OtherThreads(alone);
      var end := RunTool(id, step, alone);
      OtherThreads(alone);
      EndStep(id, step, end);
      if end != Success && end != Clarification {
        OtherThreads(alone);
        EndRollback(id, Verdict(end));
      }
      return end == Success;
    }

    /** `registry.execute`: it may refuse or give up before it calls the handler. Left alone, it does not. */
    method RunTool(id: Id, step: nat, alone: bool) returns (end: StepEnd)
      requires Valid() && rest.worker == Executing(id, step)
      modifies this`rest, this`trace
      ensures Valid() && id in records && records == old(records)
      ensures rest.worker == InHandler(id, step)
        || (rest.worker == Executing(id, step) && !(end in {Success, Clarification}))
      ensures alone ==> end == Success && rest.worker == InHandler(id, step)
    {
      hide After, Enabled, Apply, Invariant;
      InHandKnown();
      end := *;
      var called: bool := *;
      if alone {
        called, end := true, Success;
      }
      if called {
        CallHandler(id, step);
      } else if end in {Success, Clarification} {
        end := StepFailed;
      }
    }

    /** `_execute`, with other threads wherever no lock keeps them out. Whatever they do, the worker
        comes back idle, the handlers it called are the first steps in order, and the task it leaves
        is out of its reach for good. Left alone, with no step failing, it completes every step. */
    method Execute(id: Id, alone: bool)
      requires Valid() && rest.worker == Fetched(id)
      modifies this
      ensures Valid() && rest.worker.Idle? && !Reachable(View(), id)
      ensures CallsOf(View(), id) == UpTo(|CallsOf(View(), id)|)
      ensures id in old(records)
      ensures alone && !old(stopping) && !old(records)[id].cancelRequested && old(records)[id].status != Cancelled ==>
        Finished(id, old(records)[id].steps)
    {
      hide After, Invariant, Enabled, Apply, CallsFit, Reachable;
      InHandKnown();
      OtherThreads(alone);
      var goOn := FirstLook(id);
      if goOn {
        var ready := PreflightAll(id, alone);
        if ready {
          RunSteps(id, alone);
        }
      }
      LeftBehind(id);
    }

    /** Every task has run its first steps, in order. */
    lemma LeftBehind(id: Id)
      requires Valid()
      ensures CallsOf(View(), id) == UpTo(|CallsOf(View(), id)|)
    {
      Known();
      assert CallsFit(View(), id);
    }

    // ---- a new process

    /** The constructor's `_recover`: the newest journal rows come back, the unfinished ones failed. */
    method Recover() returns (ghost kept: set<Id>, ghost newest: Id)
      requires Valid()
      modifies this
      ensures Valid() && trace == old(trace) + [Restart(kept, newest)]
      ensures nextId == old(nextId) && rest.worker.Idle? && records.Keys == listed == kept
      ensures forall id: Id :: !Reachable(View(), id)
      ensures forall id | id in kept :: id in old(journal) && records[id] == Recovered(old(journal)[id])
      ensures |kept| == if |old(journal)| <= retainedTasks then |old(journal)| else retainedTasks
    {
      hide After, QueueIsFresh, CallsInOrder, WorkerInStep, CancelHolds;
      Known();
      ghost var before := View();
      var rows := NewestRows();
      kept := rows;
      queue, stopping := [], false;
      newest := LoadRows(rows);
      rest := rest.(worker := Idle);
      RestartKeepsCounter(before, kept, newest);
      Note(before, Restart(kept, newest));
    }

    /** The loop of `_recover`, with the counter starting at 1. */
    method LoadRows(rows: set<Id>) returns (ghost newest: Id)
      requires rows <= journal.Keys
      modifies this`records, this`listed, this`nextId, this`journal
      ensures records == RecoveredIn(old(journal), rows) && listed == rows
      ensures journal == RecoveredRows(old(journal), rows)
      ensures nextId == newest + 1 && (if rows == {} then newest == 0 else newest in rows)
      ensures forall id | id in rows :: id <= newest
    {
      hide RecoveredIn, RecoveredRows;
      ghost var journal0 := journal;
      newest := 0;
      records, listed, nextId := map[], {}, 1;
      var left := rows;
      NoneRecovered(journal0);
      assert rows - left == {};
      while left != {}
        invariant left <= rows && listed == rows - left && records == RecoveredIn(journal0, rows - left)
        invariant journal == RecoveredRows(journal0, rows - left)
        invariant newest + 1 == nextId && (if listed == {} then newest == 0 else newest in listed)
        invariant forall id | id in listed :: id <= newest
        decreases left
      {
        var id :| id in left;
        ghost var reached := rows - left;
        OneRecovered(journal0, reached, id);
        left := left - {id};
        assert rows - left == reached + {id};
        var t := journal[id];
        records, listed := records[id := t], listed + {id};
        if nextId < id + 1 {
          nextId, newest := id + 1, id;
        }
        if t.status in {Queued, Running} {
          Put(id, t.(status := Failed, cancelRequested := false, recovered := true));
        }
      }
      assert rows - left == rows;
    }

    /** `load_recent`: the rows with the highest numbers. */
    method NewestRows() returns (rows: set<Id>)
      ensures rows <= journal.Keys && forall id, later | id in rows && later in journal && id < later :: later in rows
      ensures |rows| == if |journal| <= retainedTasks then |journal| else retainedTasks
    {
      rows := {};
      var older := journal.Keys;
      while |rows| < retainedTasks && older != {}
        invariant rows !! older && rows + older == journal.Keys && |rows| + |older| == |journal|
          && |rows| <= retainedTasks
        invariant forall id, row | id in older && row in rows :: id < row
        decreases older
      {
        var newest := Greatest(older);
        rows, older := rows + {newest}, older - {newest};
      }
    }
  }

  /** The tasks in a queue, without the marks. */
  function Tasks(queue: seq<Option<Id>>): seq<Id> {
    if queue == [] then []
    else if queue[0].None? then Tasks(queue[1..])
    else [queue[0].value] + Tasks(queue[1..])
  }

  lemma {:induction false} TasksAppend(queue: seq<Option<Id>>, last: Option<Id>)
    ensures Tasks(queue + [last]) == if last.None? then Tasks(queue) else Tasks(queue) + [last.value]
  {
    if queue == [] {
      assert [last][1..] == [];
    } else {
      TasksAppend(queue[1..], last);
      assert (queue + [last])[1..] == queue[1..] + [last];
    }
  }

  /** The closed tasks among the listed ones. */
  function ClosedIn(records: map<Id, Task>, listed: set<Id>): set<Id>
  {
    set id | id in listed && id in records && Closed(records[id].status)
  }

  /** Asked to stop, or in no need of it. */
  predicate Asked(t: Task) {
    t.cancelRequested || !(t.status in {Queued, Running})
  }

  /** How many handlers of the task in hand have been called, wherever the worker is. */
  predicate WorkerFits(worker: Worker, t: Task, made: nat) {
    match worker
    case Idle => true
    case Fetched(_) => made == 0
    case Checking(_, passed) => made == 0 && passed <= t.steps
    case Looking(_, step) => made == step <= t.steps
    case Executing(_, step) => made == step < t.steps
    case InHandler(_, step) => made == step + 1 <= t.steps
    case RollingBack(_, verdict) => made <= t.steps && Closed(verdict)
  }

  predicate SameSteps(before: map<Id, Task>, after: map<Id, Task>) {
    forall id | id in before :: id in after && after[id].steps == before[id].steps
  }

  predicate Others(before: map<Id, Task>, after: map<Id, Task>, id: Id) {
    forall other | other in before && other != id :: other in after && after[other] == before[other]
  }

  /** How a task ends whose step ended like this. */
  function Verdict(end: StepEnd): Status {
    if end.StepCancelled? then Cancelled else if end.StepTimedOut? then TimedOut else Failed
  }

  lemma NothingRanWhileQueued(s: System, id: Id)
    requires Invariant(s)
    ensures id in s.records && s.records[id].status == Queued ==> CallsOf(s, id) == []
  {
    assert CallsFit(s, id);
  }

  /** Records and rows after recovery has come so far. */
  function RecoveredIn(journal: map<Id, Task>, kept: set<Id>): map<Id, Task>
    requires kept <= journal.Keys
  {
    map id | id in kept :: Recovered(journal[id])
  }

  function RecoveredRows(journal: map<Id, Task>, kept: set<Id>): map<Id, Task> {
    map id | id in journal :: if id in kept then Recovered(journal[id]) else journal[id]
  }

  lemma NoneRecovered(journal: map<Id, Task>)
    ensures RecoveredIn(journal, {}) == map[] && RecoveredRows(journal, {}) == journal
  {
  }

  lemma OneRecovered(journal: map<Id, Task>, kept: set<Id>, id: Id)
    requires kept <= journal.Keys && id in journal && id !in kept
    ensures id in RecoveredRows(journal, kept) && RecoveredRows(journal, kept)[id] == journal[id]
    ensures RecoveredIn(journal, kept + {id}) == RecoveredIn(journal, kept)[id := Recovered(journal[id])]
    ensures RecoveredRows(journal, kept + {id}) ==
      if journal[id].status in {Queued, Running} then RecoveredRows(journal, kept)[id := Recovered(journal[id])]
      else RecoveredRows(journal, kept)
  {
  }

  method Least(ids: set<Id>) returns (least: Id)
    requires ids != {}
    ensures least in ids && forall id | id in ids :: least <= id
  {
    least :| least in ids;
    var left := ids - {least};
    while left != {}
      invariant left <= ids && least in ids && forall id | id in ids :: id in left || least <= id
      decreases left
    {
      var id :| id in left;
      left := left - {id};
      if id < least {
        least := id;
      }
    }
  }

  method Greatest(ids: set<Id>) returns (greatest: Id)
    requires ids != {}
    ensures greatest in ids && forall id | id in ids :: id <= greatest
  {
    greatest :| greatest in ids;
    var left := ids - {greatest};
    while left != {}
      invariant left <= ids && greatest in ids && forall id | id in ids :: id in left || id <= greatest
      decreases left
    {
      var id :| id in left;
      left := left - {id};
      if greatest < id {
        greatest := id;
      }
    }
  }
}
