/** Which tool handlers run for a background task, across cancellation, shutdown and restart:
    `submit`, `cancel`, `close_waiting`, `stop`, `_execute` and `_recover` in
    ron/agent/task_manager.py with the journal of ron/agent/journal.py.

    The worker's `_execute` is cut where other threads can act between its locked sections.
    Journal saves succeed; a restart may happen at any point and keeps only the journal.
 */
module TaskRuns {
  import opened Common

  type Id = nat

  datatype Status = Queued | Running | Waiting | Resolved | Completed | Failed | Cancelled | TimedOut

  predicate Closed(s: Status) { !(s in {Queued, Running, Waiting}) }

  datatype Task = Task(steps: nat, status: Status, completed: nat, cancelRequested: bool, recovered: bool)

  datatype StepEnd = Success | Clarification | StepCancelled | StepTimedOut | StepFailed

  /** Where the single worker thread is. */
  datatype Worker =
    | Idle
    | Fetched(id: Id)                       // taken from the queue
    | Checking(id: Id, passed: nat)         // final preflight of the steps
    | Looking(id: Id, step: nat)            // about to look for cancellation before a step
    | Executing(id: Id, step: nat)          // inside `registry.execute`, before the handler
    | InHandler(id: Id, step: nat)          // the handler has been called
    | RollingBack(id: Id, verdict: Status)

  datatype System = System(
    records: map<Id, Task>,        // every record object alive in this process
    listed: set<Id>,               // those still in `_tasks`
    queue: seq<Id>,
    nextId: Id,
    stopping: bool,
    worker: Worker,
    journal: map<Id, Task>,        // what a restart finds
    calls: map<Id, seq<nat>>,      // handler calls made so far, in order, over all restarts
    preflighted: set<Id>,          // tasks all of whose steps passed the final preflight
    cancelledQueued: set<Id>)      // tasks cancelled while still queued

  /** The worker's moves for the task in hand. */
  datatype Move =
    | BeginTask
    | Preflight(ready: bool)
    | BeginRunning
    | Look
    | CallHandler
    | EndStep(end: StepEnd)
    | EndRollback

  datatype Event =
    | Submit(steps: nat, trimmed: set<Id>)
    | Fetch
    | Work(move: Move)
    | Cancel(id: Id)
    | CloseWaiting(id: Id, verdict: Status)
    | Stop                                  // the flag
    | Interrupt(id: Id)                     // the loop of `stop` reaches one record
    | Start
    | Restart(kept: set<Id>, newest: Id)

  const FIRST_START := System(map[], {}, [], 1, false, Idle, map[], map[], {}, {})

  function CallsOf(s: System, id: Id): seq<nat> {
    if id in s.calls then s.calls[id] else []
  }

  /** Update a record and save it to the journal. */
  function Save(s: System, id: Id, t: Task): System {
    s.(records := s.records[id := t], journal := s.journal[id := t])
  }

  predicate WorkingOn(s: System, id: Id) {
    !s.worker.Idle? && s.worker.id == id
  }

  /** The record of the task in hand. */
  function InHand(s: System): Task
    requires !s.worker.Idle? && s.worker.id in s.records
  {
    s.records[s.worker.id]
  }

  predicate CanMove(s: System, m: Move) {
    && !s.worker.Idle? && s.worker.id in s.records
    && match m
       case BeginTask => s.worker.Fetched?
       case Preflight(_) => s.worker.Checking? && s.worker.passed < InHand(s).steps
       case BeginRunning => s.worker.Checking? && s.worker.passed == InHand(s).steps
       case Look => s.worker.Looking?
       case CallHandler => s.worker.Executing?
       case EndStep(end) => s.worker.InHandler? || (s.worker.Executing? && !(end in {Success, Clarification}))
       case EndRollback => s.worker.RollingBack?
  }

  predicate Enabled(s: System, e: Event) {
    match e
    case Submit(steps, trimmed) =>
      1 <= steps <= 4 && trimmed <= s.listed && forall id | id in trimmed ::
        id in s.records && Closed(s.records[id].status)
    case Fetch => s.worker.Idle? && s.queue != []
    case Work(m) => CanMove(s, m)
    case Cancel(id) => id in s.listed && id in s.records
    case CloseWaiting(id, verdict) => id in s.listed && id in s.records && verdict in {Resolved, Cancelled}
    case Stop => true
    case Interrupt(id) => id in s.records
    case Start => true
    case Restart(kept, newest) =>
      // the newest rows of the journal, at least one if there is any
      && kept <= s.journal.Keys
      && (forall id, later | id in kept && later in s.journal && id < later :: later in kept)
      && (if s.journal == map[] then newest == 0 else newest in kept)
      && forall id | id in kept :: id <= newest
  }

  /** The record after a move. Every move that changes it saves it. */
  function RecordAfter(t: Task, w: Worker, m: Move): (t': Task)
    ensures t'.steps == t.steps && t'.cancelRequested == t.cancelRequested
  {
    match m
    case Preflight(false) => t.(status := Failed)
    case BeginRunning => t.(status := Running)
    case Look => if w.Looking? && w.step >= t.steps then t.(status := Completed) else t
    case EndStep(Success) => if w.InHandler? then t.(completed := w.step + 1) else t
    case EndStep(Clarification) => t.(status := Waiting)
    case EndRollback => if w.RollingBack? then t.(status := w.verdict) else t
    case _ => t
  }

  function WorkerAfter(t: Task, w: Worker, m: Move, stopping: bool): Worker
    requires !w.Idle?
    requires match m
             case Preflight(_) => w.Checking?
             case Look => w.Looking?
             case CallHandler => w.Executing?
             case EndStep(_) => w.InHandler? || w.Executing?
             case _ => true
  {
    match m
    case BeginTask => if t.status == Cancelled || t.cancelRequested then Idle else Checking(w.id, 0)
    case Preflight(ready) => if ready then Checking(w.id, w.passed + 1) else Idle
    case BeginRunning => Looking(w.id, 0)
    case Look =>
      if w.step >= t.steps then Idle
      else if t.cancelRequested || stopping then RollingBack(w.id, Cancelled)
      else Executing(w.id, w.step)
    case CallHandler => InHandler(w.id, w.step)
    case EndStep(end) =>
      (match end
       case Success => Looking(w.id, w.step + 1)
       case Clarification => Idle
       case StepCancelled => RollingBack(w.id, Cancelled)
       case StepTimedOut => RollingBack(w.id, TimedOut)
       case StepFailed => RollingBack(w.id, Failed))
    case EndRollback => Idle
  }

  function MoveWorker(s: System, m: Move): System
    requires CanMove(s, m)
  {
    var id, t := s.worker.id, InHand(s);
    Save(s, id, RecordAfter(t, s.worker, m)).(
      worker := WorkerAfter(t, s.worker, m, s.stopping),
      preflighted := if m.BeginRunning? then s.preflighted + {id} else s.preflighted,
      calls := if m.CallHandler? then s.calls[id := CallsOf(s, id) + [s.worker.step]] else s.calls)
  }

  /** `cancel` on a record. */
  function CancelTask(s: System, id: Id): System
    requires id in s.records
  {
    var t := s.records[id];
    if Closed(t.status) then s
    else if t.status == Running then Save(s, id, t.(cancelRequested := true))
    else
      Save(s, id, t.(cancelRequested := true, status := Cancelled)).(
        cancelledQueued := if t.status == Queued then s.cancelledQueued + {id} else s.cancelledQueued)
  }

  /** `stop` on one record, under its lock. */
  function InterruptTask(s: System, id: Id): System
    requires id in s.records
  {
    if s.records[id].status in {Queued, Running} then Save(s, id, s.records[id].(cancelRequested := true)) else s
  }

  /** `_recover` on one journal row. */
  function Recovered(t: Task): Task {
    if t.status in {Queued, Running} then t.(status := Failed, cancelRequested := false, recovered := true) else t
  }

  function Recover(s: System, kept: set<Id>, newest: Id): System
    requires kept <= s.journal.Keys
  {
    s.(records := map id | id in kept :: Recovered(s.journal[id]), listed := kept, queue := [],
       nextId := newest + 1, stopping := false, worker := Idle,
       journal := map id | id in s.journal :: if id in kept then Recovered(s.journal[id]) else s.journal[id])
  }

  function Apply(s: System, e: Event): System
    requires Enabled(s, e)
  {
    match e
    case Submit(steps, trimmed) =>
      var id := s.nextId;
      Save(s, id, Task(steps, Queued, 0, false, false)).(
        nextId := id + 1, listed := s.listed + {id} - trimmed, queue := s.queue + [id])
    case Fetch => s.(worker := Fetched(s.queue[0]), queue := s.queue[1..])
    case Work(m) => MoveWorker(s, m)
    case Cancel(id) => CancelTask(s, id)
    case CloseWaiting(id, verdict) =>
      if s.records[id].status != Waiting then s else Save(s, id, s.records[id].(status := verdict))
    case Stop => s.(stopping := true)
    case Interrupt(id) => InterruptTask(s, id)
    case Start => s.(stopping := false)
    case Restart(kept, newest) => Recover(s, kept, newest)
  }

  function After(events: seq<Event>): Option<System> {
    if events == [] then Some(FIRST_START)
    else
      var last := |events| - 1;
      match After(events[..last])
      case None => None
      case Some(s) => if Enabled(s, events[last]) then Some(Apply(s, events[last])) else None
  }

  // ---- the invariant

  function UpTo(n: nat): seq<nat> { seq(n, i => i) }

  /** A task that the worker can still reach. */
  predicate Reachable(s: System, id: Id) {
    id in s.queue || WorkingOn(s, id)
  }

  ghost predicate Numbered(s: System) {
    && s.nextId >= 1
    && (forall id :: id in s.journal <==> 1 <= id < s.nextId)
    && (forall id | id in s.records :: id in s.journal && s.records[id] == s.journal[id])
    && s.listed <= s.records.Keys
    && (forall id | id in s.queue :: id in s.records)
    && (s.worker.Idle? || s.worker.id in s.records)
    && (forall id | id in s.calls :: 1 <= id < s.nextId)
    && (forall id | id in s.cancelledQueued :: 1 <= id < s.nextId)
    && (forall id | id in s.preflighted :: 1 <= id < s.nextId)
  }

  /** The queue holds each task once, none of them started, and never the one in hand. */
  ghost predicate QueueIsFresh(s: System) {
    && (forall i, j | 0 <= i < j < |s.queue| :: s.queue[i] != s.queue[j])
    && (forall id | id in s.queue :: CallsOf(s, id) == [] && !WorkingOn(s, id))
  }

  /** What is known of one task from its handler calls. */
  ghost predicate CallsFit(s: System, id: Id) {
    var made := CallsOf(s, id);
    && made == UpTo(|made|)
    && (made != [] ==> id in s.preflighted)
    && (id in s.journal ==> |made| <= s.journal[id].steps)
    && (id in s.records && s.records[id].status == Queued ==> made == [])
  }

  /** Handler calls go up in order, only after a full preflight. */
  ghost predicate CallsInOrder(s: System) {
    forall id :: CallsFit(s, id)
  }

  /** Where the worker is agrees with the calls it has made for the task in hand. */
  ghost predicate WorkerInStep(s: System) {
    s.worker.Idle? ||
      (s.worker.id in s.records &&
        var t, made := s.records[s.worker.id], |CallsOf(s, s.worker.id)|;
        match s.worker
        case Fetched(_) => made == 0
        case Checking(_, passed) => made == 0 && passed <= t.steps
        case Looking(id, step) => t.status == Running && made == step <= t.steps && id in s.preflighted
        case Executing(id, step) => t.status == Running && made == step < t.steps && id in s.preflighted
        case InHandler(_, step) => t.status == Running && made == step + 1
        case RollingBack(_, verdict) => t.status == Running && verdict in {Cancelled, TimedOut, Failed})
  }

  /** A task cancelled while queued keeps the request and never gets past the look before step one. */
  ghost predicate CancelHolds(s: System) {
    forall id | id in s.cancelledQueued ::
      && CallsOf(s, id) == []
      && (Reachable(s, id) ==> id in s.records && s.records[id].cancelRequested)
      && (WorkingOn(s, id) ==> !s.worker.Executing? && !s.worker.InHandler?)
  }

  ghost predicate Invariant(s: System) {
    Numbered(s) && QueueIsFresh(s) && CallsInOrder(s) && WorkerInStep(s) && CancelHolds(s)
  }

  /** Each step calls at most one handler, the next one of the task in hand. */
  lemma StepCalls(s: System, e: Event, id: Id)
    requires Enabled(s, e)
    ensures CallsOf(Apply(s, e), id) ==
      CallsOf(s, id) + if e == Work(CallHandler) && s.worker.id == id then [s.worker.step] else []
  {
  }

  /** Recovery reads the newest journal rows, so the next number is the one it would have been anyway. */
  lemma RestartKeepsCounter(s: System, kept: set<Id>, newest: Id)
    requires Numbered(s) && Enabled(s, Restart(kept, newest))
    ensures newest + 1 == s.nextId
  {
    if s.nextId > 1 {
      assert s.nextId - 1 in s.journal;
    } else {
      assert s.journal == map[];
    }
  }

  /** What every event but a submission and a restart leaves as it is. */
  ghost predicate Calm(s: System, s': System) {
    && s'.nextId == s.nextId && s'.listed == s.listed
    && s'.records.Keys == s.records.Keys && s'.journal.Keys == s.journal.Keys
    && (forall id | id in s'.records :: id in s'.journal && s'.records[id] == s'.journal[id])
    && (forall id | id in s.journal :: s'.journal[id].steps == s.journal[id].steps)
    && (forall id | id in s.records && s.records[id].cancelRequested :: s'.records[id].cancelRequested)
    && (forall id | id in s'.queue :: id in s.queue)
    && (s'.worker.Idle? || (s.worker.Idle? && s'.worker.id in s.queue)
      || (!s.worker.Idle? && s'.worker.id == s.worker.id))
  }

  lemma MoveIsCalm(s: System, m: Move)
    requires Numbered(s) && CanMove(s, m)
    ensures Calm(s, MoveWorker(s, m))
  {
  }

  lemma CancelIsCalm(s: System, id: Id)
    requires Numbered(s) && id in s.records
    ensures Calm(s, CancelTask(s, id))
  {
  }

  lemma InterruptIsCalm(s: System, id: Id)
    requires Numbered(s) && id in s.records
    ensures Calm(s, InterruptTask(s, id))
  {
  }

  lemma FetchIsCalm(s: System)
    requires Numbered(s) && Enabled(s, Fetch)
    ensures Calm(s, Apply(s, Fetch))
  {
    assert forall id | id in s.queue[1..] :: id in s.queue;
  }

  lemma CloseIsCalm(s: System, id: Id, verdict: Status)
    requires Numbered(s) && Enabled(s, CloseWaiting(id, verdict))
    ensures Calm(s, Apply(s, CloseWaiting(id, verdict)))
  {
  }

  lemma FlagIsCalm(s: System, stopping: bool)
    requires Numbered(s)
    ensures Calm(s, s.(stopping := stopping))
  {
  }

  lemma MostEventsAreCalm(s: System, e: Event)
    requires Numbered(s) && Enabled(s, e) && !e.Submit? && !e.Restart?
    ensures Calm(s, Apply(s, e))
  {
    hide Calm, Numbered, MoveWorker, CancelTask, InterruptTask, CanMove;
    match e
    case Fetch => FetchIsCalm(s);
    case Work(m) => MoveIsCalm(s, m);
    case Cancel(id) => CancelIsCalm(s, id);
    case CloseWaiting(id, verdict) => CloseIsCalm(s, id, verdict);
    case Stop => FlagIsCalm(s, true);
    case Interrupt(id) => InterruptIsCalm(s, id);
    case Start => FlagIsCalm(s, false);
  }

  lemma CalmKeepsNumbered(s: System, s': System)
    requires Numbered(s) && Calm(s, s')
    requires forall id | id in s'.calls :: id in s.calls || (!s.worker.Idle? && id == s.worker.id)
    requires forall id | id in s'.preflighted :: id in s.preflighted || (!s.worker.Idle? && id == s.worker.id)
    requires forall id | id in s'.cancelledQueued :: id in s.cancelledQueued || id in s.records
    ensures Numbered(s')
  {
  }

  lemma SubmitKeepsNumbered(s: System, e: Event)
    requires Numbered(s) && e.Submit? && Enabled(s, e)
    ensures Numbered(Apply(s, e))
  {
    assert s.nextId !in s.journal;
  }

  lemma RestartKeepsNumbered(s: System, kept: set<Id>, newest: Id)
    requires Numbered(s) && Enabled(s, Restart(kept, newest))
    ensures Numbered(Recover(s, kept, newest))
  {
    RestartKeepsCounter(s, kept, newest);
  }

  lemma MoveKeepsNumbered(s: System, m: Move)
    requires Numbered(s) && CanMove(s, m)
    ensures Numbered(MoveWorker(s, m))
  {
    hide Calm, Numbered;
    MoveIsCalm(s, m);
    CalmKeepsNumbered(s, MoveWorker(s, m));
  }

  lemma CancelKeepsNumbered(s: System, id: Id)
    requires Numbered(s) && id in s.records
    ensures Numbered(CancelTask(s, id))
  {
    hide Calm, Numbered;
    CancelIsCalm(s, id);
    CalmKeepsNumbered(s, CancelTask(s, id));
  }

  lemma KeepsNumbered(s: System, e: Event)
    requires Numbered(s) && Enabled(s, e)
    ensures Numbered(Apply(s, e))
  {
    hide Calm, Numbered, MoveWorker, CancelTask, CanMove;
    match e
    case Submit(_, _) => SubmitKeepsNumbered(s, e);
    case Restart(kept, newest) => RestartKeepsNumbered(s, kept, newest);
    case Work(m) => MoveKeepsNumbered(s, m);
    case Cancel(id) => CancelKeepsNumbered(s, id);
    case _ =>
      MostEventsAreCalm(s, e);
      CalmKeepsNumbered(s, Apply(s, e));
  }

  lemma KeepsQueue(s: System, e: Event)
    requires Numbered(s) && QueueIsFresh(s) && Enabled(s, e)
    ensures QueueIsFresh(Apply(s, e))
  {
    hide Apply, Enabled, Numbered, CallsOf, WorkingOn;
    var s' := Apply(s, e);
    forall id | id in s'.queue ensures CallsOf(s', id) == [] && !WorkingOn(s', id) {
      StaysFresh(s, e, id);
    }
    QueueStaysDistinct(s, e);
  }

  lemma StaysFresh(s: System, e: Event, id: Id)
    requires Numbered(s) && QueueIsFresh(s) && Enabled(s, e) && id in Apply(s, e).queue
    ensures CallsOf(Apply(s, e), id) == [] && !WorkingOn(Apply(s, e), id)
  {
    StepCalls(s, e, id);
    if e.Submit? && id == s.nextId {
      assert id !in s.calls && !WorkingOn(s, id);
    } else if e.Fetch? {
      var k :| 0 <= k < |s.queue[1..]| && s.queue[1..][k] == id;
      assert s.queue[k + 1] == id;
    } else {
      assert id in s.queue;
    }
  }

  lemma QueueStaysDistinct(s: System, e: Event)
    requires Numbered(s) && QueueIsFresh(s) && Enabled(s, e)
    ensures forall i, j | 0 <= i < j < |Apply(s, e).queue| :: Apply(s, e).queue[i] != Apply(s, e).queue[j]
  {
    var s' := Apply(s, e);
    forall i, j | 0 <= i < j < |s'.queue| ensures s'.queue[i] != s'.queue[j] {
      if e.Fetch? {
        assert s'.queue[i] == s.queue[i + 1] && s'.queue[j] == s.queue[j + 1];
      } else if e.Submit? && j == |s.queue| {
        assert s.queue[i] in s.queue;
      }
    }
  }

  lemma KeepsCallsOf(s: System, e: Event, id: Id)
    requires Numbered(s) && QueueIsFresh(s) && WorkerInStep(s) && CallsFit(s, id) && Enabled(s, e)
    ensures CallsFit(Apply(s, e), id)
  {
    StepCalls(s, e, id);
    if id in s.journal {
      assert Apply(s, e).journal[id].steps == s.journal[id].steps;
    }
  }

  lemma KeepsCalls(s: System, e: Event)
    requires Invariant(s) && Enabled(s, e)
    ensures CallsInOrder(Apply(s, e))
  {
    hide CallsFit, Numbered, QueueIsFresh, WorkerInStep, CancelHolds, Apply, Enabled;
    forall id ensures CallsFit(Apply(s, e), id) {
      assert CallsFit(s, id);
      KeepsCallsOf(s, e, id);
    }
  }

  lemma MoveKeepsWorker(s: System, m: Move)
    requires WorkerInStep(s) && CanMove(s, m) && CallsFit(s, s.worker.id)
    requires s.worker.id in s.journal && s.journal[s.worker.id] == s.records[s.worker.id]
    ensures WorkerInStep(MoveWorker(s, m))
  {
    StepCalls(s, Work(m), s.worker.id);
  }

  lemma OthersKeepWorker(s: System, e: Event)
    requires Numbered(s) && WorkerInStep(s) && Enabled(s, e) && !e.Work? && !e.Fetch?
    ensures WorkerInStep(Apply(s, e))
  {
    if e.Submit? {
      assert s.worker.Idle? || s.worker.id != s.nextId;
    }
  }

  lemma KeepsWorker(s: System, e: Event)
    requires Invariant(s) && Enabled(s, e)
    ensures WorkerInStep(Apply(s, e))
  {
    hide MoveWorker, CancelHolds;
    match e
    case Work(m) =>
      assert CallsFit(s, s.worker.id);
      MoveKeepsWorker(s, m);
    case Fetch => assert s.queue[0] in s.queue;
    case _ => OthersKeepWorker(s, e);
  }

  /** The events that can add a handler call, or a task cancelled while queued. */
  lemma NewFacts(s: System, e: Event, id: Id)
    requires Enabled(s, e)
    ensures id in Apply(s, e).cancelledQueued && id !in s.cancelledQueued ==>
      e == Cancel(id) && s.records[id].status == Queued && id in Apply(s, e).records
        && Apply(s, e).records[id].cancelRequested
    ensures WorkingOn(Apply(s, e), id) && Apply(s, e).worker.Executing? ==>
      (s.worker.Executing? && s.worker.id == id)
        || (e == Work(Look) && s.worker.id == id && !s.records[id].cancelRequested)
    ensures Apply(s, e).worker.InHandler? ==>
      s.worker == Apply(s, e).worker || (e == Work(CallHandler) && s.worker.id == Apply(s, e).worker.id)
  {
  }

  lemma KeepsCancel(s: System, e: Event)
    requires Invariant(s) && Enabled(s, e)
    ensures CancelHolds(Apply(s, e))
  {
    var s' := Apply(s, e);
    forall id | id in s'.cancelledQueued
      ensures CallsOf(s', id) == []
      ensures Reachable(s', id) ==> id in s'.records && s'.records[id].cancelRequested
      ensures WorkingOn(s', id) ==> !s'.worker.Executing? && !s'.worker.InHandler?
    {
      StepCalls(s, e, id);
      NewFacts(s, e, id);
      CancelHoldsFor(s, e, id, s');
      assert CallsFit(s, id);
    }
  }

  lemma CancelHoldsFor(s: System, e: Event, id: Id, s': System)
    requires Invariant(s) && Enabled(s, e) && s' == Apply(s, e) && id in s'.cancelledQueued
    ensures Reachable(s', id) ==> id in s'.records && s'.records[id].cancelRequested
  {
    if !e.Submit? && !e.Restart? {
      MostEventsAreCalm(s, e);
      NewFacts(s, e, id);
    }
  }

  /** Every run of submissions, worker moves, cancellations, shutdowns and restarts keeps the invariant. */
  lemma {:induction false} RunKeepsInvariant(events: seq<Event>)
    requires After(events).Some?
    ensures Invariant(After(events).value)
  {
    if events == [] {
    } else {
      var last := |events| - 1;
      RunKeepsInvariant(events[..last]);
      var s, e := After(events[..last]).value, events[last];
      KeepsNumbered(s, e);
      KeepsQueue(s, e);
      KeepsCalls(s, e);
      KeepsWorker(s, e);
      KeepsCancel(s, e);
    }
  }

  // ---- what the manager promises

  /** The handlers run for a task are its steps in order from the first, none repeated, none
      before every step passed the final preflight, and none at all if it was cancelled while queued. */
  lemma HandlersRunAtMostOnceInOrder(events: seq<Event>, id: Id)
    requires After(events).Some? && id in After(events).value.journal
    ensures var s := After(events).value;
            && CallsOf(s, id) == UpTo(|CallsOf(s, id)|) && |CallsOf(s, id)| <= s.journal[id].steps
            && (CallsOf(s, id) != [] ==> id in s.preflighted)
            && (id in s.cancelledQueued ==> CallsOf(s, id) == [])
  {
    RunKeepsInvariant(events);
    assert CallsFit(After(events).value, id);
  }

  /** A task the worker cannot reach any more, in particular every task from before a restart,
      never becomes reachable again and never has another handler run for it. */
  lemma {:induction false} UnreachableForever(before: seq<Event>, more: seq<Event>, id: Id)
    requires After(before).Some? && After(before + more).Some?
    requires id < After(before).value.nextId && !Reachable(After(before).value, id)
    ensures !Reachable(After(before + more).value, id)
    ensures CallsOf(After(before + more).value, id) == CallsOf(After(before).value, id)
    ensures After(before).value.nextId <= After(before + more).value.nextId
  {
    if more == [] {
      assert before + more == before;
    } else {
      var last := |more| - 1;
      assert (before + more)[..|before| + last] == before + more[..last];
      assert (before + more)[|before| + last] == more[last];
      UnreachableForever(before, more[..last], id);
      RunKeepsInvariant(before + more[..last]);
      var s, e := After(before + more[..last]).value, more[last];
      StepCalls(s, e, id);
      NothingBecomesReachable(s, e, id);
    }
  }

  lemma NothingBecomesReachable(s: System, e: Event, id: Id)
    requires Invariant(s) && Enabled(s, e) && !Reachable(s, id) && id < s.nextId
    ensures !Reachable(Apply(s, e), id) && s.nextId <= Apply(s, e).nextId
  {
    match e
    case Submit(_, _) =>
    case Restart(kept, newest) => RestartKeepsCounter(s, kept, newest);
    case _ => MostEventsAreCalm(s, e);
  }

  /** Restarting makes every known task unreachable, and what was unfinished is marked failed. */
  lemma RestartAbandonsEverything(events: seq<Event>, kept: set<Id>, newest: Id, id: Id)
    requires After(events).Some? && Enabled(After(events).value, Restart(kept, newest))
    ensures var s := After(events).value;
            var s' := Apply(s, Restart(kept, newest));
            && s'.nextId == s.nextId && !Reachable(s', id)
            && (id in s'.records ==> s'.records[id].status !in {Queued, Running})
            && (id in kept && s.journal[id].status in {Queued, Running} ==> s'.journal[id].status == Failed)
  {
    RunKeepsInvariant(events);
    RestartKeepsCounter(After(events).value, kept, newest);
  }

  /** A submission gets a number that no task has had, before or after any restart. */
  lemma NumbersAreNeverReused(events: seq<Event>, id: Id)
    requires After(events).Some?
    requires id in After(events).value.journal || id in After(events).value.records || id in After(events).value.calls
    ensures id < After(events).value.nextId
  {
    RunKeepsInvariant(events);
  }

  /** A closed task changes status exactly when the worker took it from the queue before its
      cancellation, found nothing against it, and is at the end of the final preflight. */
  lemma ClosedStatusChangesOnlyDuringPreflight(s: System, e: Event, id: Id)
    requires Invariant(s) && Enabled(s, e) && !e.Restart?
    requires id in s.records && Closed(s.records[id].status)
    ensures Apply(s, e).records[id].status != s.records[id].status <==>
              WorkingOn(s, id) && s.worker.Checking? &&
              (e == Work(BeginRunning) || (e == Work(Preflight(false)) && s.records[id].status != Failed))
  {
    match e
    case Work(m) =>
    case _ =>
  }

  /** Such a run: a task cancelled during its preflight reads CANCELLED, RUNNING and CANCELLED again. */
  lemma ClosedIsNotAbsorbing() returns (events: seq<Event>)
    ensures After(events).Some? && After(events + [Work(BeginRunning)]).Some?
    ensures 1 in After(events).value.records && 1 in After(events + [Work(BeginRunning)]).value.records
    ensures After(events).value.records[1].status == Cancelled
    ensures After(events + [Work(BeginRunning)]).value.records[1].status == Running
  {
    assert After([]) == Some(FIRST_START);
    Extend([], Submit(1, {}));
    var e1 := [] + [Submit(1, {})];
    Extend(e1, Fetch);
    Extend(e1 + [Fetch], Work(BeginTask));
    var e3 := e1 + [Fetch] + [Work(BeginTask)];
    Extend(e3, Cancel(1));
    Extend(e3 + [Cancel(1)], Work(Preflight(true)));
    events := e3 + [Cancel(1)] + [Work(Preflight(true))];
    Extend(events, Work(BeginRunning));
  }

  lemma Extend(events: seq<Event>, e: Event)
    requires After(events).Some? && Enabled(After(events).value, e)
    ensures After(events + [e]) == Some(Apply(After(events).value, e))
  {
    assert (events + [e])[..|events|] == events;
  }
}
