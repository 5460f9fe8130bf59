/** The priority gate for model requests: ron/ai/scheduler.py.

    `run` is split at the points where a thread can lose the condition's lock:
    arriving (push, then the first test of the wait loop), resuming after a
    notification (another test of the loop), and leaving (clear the flag and
    notify everyone). Each piece is atomic; the pieces of different threads
    interleave freely.
 */
module InferenceScheduling {

  import opened Common

  /** A heap entry. The ticket object of the program only gives identity, which the sequence number gives here. */
  datatype Ticket = Ticket(priority: nat, sequence: nat)

  /** Heap order: priority first, then arrival. */
  predicate Before(a: Ticket, b: Ticket) {
    a.priority < b.priority || (a.priority == b.priority && a.sequence < b.sequence)
  }

  predicate IsHead(t: Ticket, waiting: set<Ticket>) {
    t in waiting && forall u | u in waiting && u != t :: Before(t, u)
  }

  /** `blocked` holds the waiters asleep in `wait`; the other waiters have been
      notified and are only waiting to take the lock again. `running` and
      `admitted` are the operations in progress and the order of admission. */
  datatype Gate = Gate(
    waiting: set<Ticket>,
    blocked: set<Ticket>,
    nextSequence: nat,
    active: bool,
    running: set<Ticket>,
    admitted: seq<Ticket>)

  datatype Event =
    | Arrive(priority: nat)
    | Resume(ticket: Ticket)
    | Leave(ticket: Ticket)

  const IDLE := Gate({}, {}, 0, false, {}, [])

  predicate Enabled(g: Gate, e: Event) {
    match e
    case Arrive(_) => true
    case Resume(t) => t in g.waiting && t !in g.blocked
    case Leave(t) => t in g.running
  }

  /** One evaluation of the wait loop's condition by the thread holding `t`. */
  function Attempt(g: Gate, t: Ticket): Gate {
    if g.active || !IsHead(t, g.waiting) then
      g.(blocked := g.blocked + {t})
    else
      g.(waiting := g.waiting - {t}, blocked := g.blocked - {t},
         active := true, running := g.running + {t}, admitted := g.admitted + [t])
  }

  function Apply(g: Gate, e: Event): Gate
    requires Enabled(g, e)
  {
    match e
    case Arrive(priority) =>
      var t := Ticket(priority, g.nextSequence);
      Attempt(g.(waiting := g.waiting + {t}, nextSequence := g.nextSequence + 1), t)
    case Resume(t) => Attempt(g, t)
    case Leave(t) => g.(active := false, running := g.running - {t}, blocked := {})
  }

  /** The gate after a run, or None when the run is not one the threads can perform. */
  function After(events: seq<Event>): Option<Gate> {
    if events == [] then Some(IDLE)
    else
      var last := |events| - 1;
      match After(events[..last])
      case None => None
      case Some(g) => if Enabled(g, events[last]) then Some(Apply(g, events[last])) else None
  }

  /** `late` may be admitted ahead of `early` only on strictly higher priority. */
  predicate FairOver(late: Ticket, early: Ticket) {
    early.sequence < late.sequence ==> late.priority < early.priority
  }

  ghost predicate Ordered(g: Gate) {
    && (forall i, j | 0 <= i < j < |g.admitted| :: FairOver(g.admitted[i], g.admitted[j]))
    && (forall i, w | 0 <= i < |g.admitted| && w in g.waiting :: FairOver(g.admitted[i], w))
  }

  /** Every sequence number handed out names exactly one ticket, waiting or admitted once. */
  ghost predicate Conserved(g: Gate) {
    && (forall t | t in g.waiting :: t.sequence < g.nextSequence)
    && (forall i | 0 <= i < |g.admitted| :: g.admitted[i].sequence < g.nextSequence)
    && (forall t, u | t in g.waiting && u in g.waiting && t.sequence == u.sequence :: t == u)
    && (forall i, j | 0 <= i < j < |g.admitted| :: g.admitted[i].sequence != g.admitted[j].sequence)
    && (forall i, t | 0 <= i < |g.admitted| && t in g.waiting :: g.admitted[i].sequence != t.sequence)
    && (forall n | 0 <= n < g.nextSequence :: Issued(g, n))
  }

  ghost predicate Issued(g: Gate, n: nat) {
    (exists t :: t in g.waiting && t.sequence == n)
    || (exists i :: 0 <= i < |g.admitted| && g.admitted[i].sequence == n)
  }

  /** At most one operation, which is the last one admitted, and the flag tells whether there is one. */
  ghost predicate Exclusive(g: Gate) {
    g.running == if g.active && |g.admitted| > 0 then {g.admitted[|g.admitted| - 1]} else {}
  }

  /** An idle gate never has its head waiter asleep: the wakeup it needs has been sent. */
  ghost predicate NoLostWakeup(g: Gate) {
    && g.blocked <= g.waiting
    && (!g.active ==> forall t | IsHead(t, g.waiting) :: t !in g.blocked)
  }

  ghost predicate Invariant(g: Gate) {
    && Ordered(g) && Conserved(g) && Exclusive(g) && NoLostWakeup(g)
    && (g.active ==> |g.admitted| > 0)
  }

  lemma PushKeeps(g: Gate, t: Ticket)
    requires Invariant(g) && t.sequence == g.nextSequence
    ensures Invariant(g.(waiting := g.waiting + {t}, nextSequence := g.nextSequence + 1))
  {
    PushKeepsNumbers(g, t);
  }

  lemma PushKeepsNumbers(g: Gate, t: Ticket)
    requires Conserved(g) && t.sequence == g.nextSequence
    ensures Conserved(g.(waiting := g.waiting + {t}, nextSequence := g.nextSequence + 1))
  {
    var g' := g.(waiting := g.waiting + {t}, nextSequence := g.nextSequence + 1);
    forall n | 0 <= n < g'.nextSequence ensures Issued(g', n) {
      if n == t.sequence {
        assert t in g'.waiting;
      } else {
        assert Issued(g, n);
      }
    }
  }

  lemma AttemptKeepsIssued(g: Gate, t: Ticket, n: nat)
    requires t in g.waiting && Issued(g, n)
    ensures Issued(Attempt(g, t), n)
  {
    var g' := Attempt(g, t);
    if t.sequence == n && g'.admitted != g.admitted {
      assert g'.admitted[|g.admitted|] == t;
    } else if i :| 0 <= i < |g.admitted| && g.admitted[i].sequence == n {
      assert g'.admitted[i].sequence == n;
    }
  }

  lemma AttemptKeepsNumbers(g: Gate, t: Ticket)
    requires Conserved(g) && t in g.waiting
    ensures Conserved(Attempt(g, t))
  {
    hide Issued;
    forall n | 0 <= n < g.nextSequence ensures Issued(Attempt(g, t), n) {
      assert Issued(g, n);
      AttemptKeepsIssued(g, t, n);
    }
  }

  lemma AttemptKeepsOrder(g: Gate, t: Ticket)
    requires Ordered(g) && Conserved(g) && t in g.waiting
    ensures Ordered(Attempt(g, t))
  {
    hide Issued;
  }

  lemma AttemptKeeps(g: Gate, t: Ticket)
    requires Invariant(g) && t in g.waiting
    ensures Invariant(Attempt(g, t))
  {
    hide Ordered, Conserved;
    AttemptKeepsNumbers(g, t);
    AttemptKeepsOrder(g, t);
  }

  lemma LeaveKeeps(g: Gate, t: Ticket)
    requires Invariant(g) && Enabled(g, Leave(t))
    ensures Invariant(Apply(g, Leave(t)))
  {
    hide Issued;
    LeaveKeepsIssued(g, t);
  }

  lemma LeaveKeepsIssued(g: Gate, t: Ticket)
    requires Enabled(g, Leave(t))
    ensures forall n: nat :: Issued(Apply(g, Leave(t)), n) == Issued(g, n)
  {
  }

  lemma ApplyKeeps(g: Gate, e: Event)
    requires Invariant(g) && Enabled(g, e)
    ensures Invariant(Apply(g, e))
  {
    hide Invariant, Attempt, IsHead;
    match e
    case Arrive(priority) =>
      var t := Ticket(priority, g.nextSequence);
      PushKeeps(g, t);
      AttemptKeeps(g.(waiting := g.waiting + {t}, nextSequence := g.nextSequence + 1), t);
    case Resume(t) => AttemptKeeps(g, t);
    case Leave(t) => LeaveKeeps(g, t);
  }

  /** Every interleaving of arrivals, resumptions and departures keeps the whole invariant. */
  lemma {:induction false} RunKeepsInvariant(events: seq<Event>)
    requires After(events).Some?
    ensures Invariant(After(events).value)
  {
    if events == [] {
    } else {
      var last := |events| - 1;
      RunKeepsInvariant(events[..last]);
      ApplyKeeps(After(events[..last]).value, events[last]);
    }
  }

  /** Mutual exclusion: in every run at most one operation is in progress. */
  lemma {:induction false} MutualExclusion(events: seq<Event>)
    requires After(events).Some?
    ensures |After(events).value.running| <= 1
    ensures After(events).value.active <==> After(events).value.running != {}
  {
    RunKeepsInvariant(events);
  }

  /** A ticket is overtaken only by strictly higher priority; equal priorities are first come, first served. */
  lemma AdmissionOrder(events: seq<Event>, late: nat, early: Ticket)
    requires After(events).Some?
    requires late < |After(events).value.admitted|
    requires early in After(events).value.waiting || early in After(events).value.admitted[late + 1..]
    requires early.sequence < After(events).value.admitted[late].sequence
    ensures After(events).value.admitted[late].priority < early.priority
  {
    RunKeepsInvariant(events);
  }

  /** The priorities of the requests so far, in the order they came. */
  function Arrivals(events: seq<Event>): seq<nat> {
    if events == [] then []
    else
      var last := |events| - 1;
      Arrivals(events[..last]) + if events[last].Arrive? then [events[last].priority] else []
  }

  /** The tickets are the requests: each carries its priority and its place in the order of arrival, and
      each request is waiting, or was admitted, under that very ticket. */
  lemma {:induction false} TicketsAreRequests(events: seq<Event>)
    requires After(events).Some?
    ensures After(events).value.nextSequence == |Arrivals(events)|
    ensures forall n | 0 <= n < |Arrivals(events)| ::
      var t := Ticket(Arrivals(events)[n], n);
      t in After(events).value.waiting || t in After(events).value.admitted
    ensures forall t | t in After(events).value.waiting || t in After(events).value.admitted ::
      t.sequence < |Arrivals(events)| && t.priority == Arrivals(events)[t.sequence]
  {
    if events == [] {
    } else {
      var last := |events| - 1;
      TicketsAreRequests(events[..last]);
      var g, e := After(events[..last]).value, events[last];
      var t := if e.Arrive? then Ticket(e.priority, g.nextSequence) else e.ticket;
      NoTicketLost(g, e, t);
    }
  }

  lemma NoTicketLost(g: Gate, e: Event, t: Ticket)
    requires Enabled(g, e) && t == if e.Arrive? then Ticket(e.priority, g.nextSequence) else e.ticket
    ensures var g' := Apply(g, e);
      forall u :: u in g'.waiting || u in g'.admitted <==>
        u in g.waiting || u in g.admitted || (e.Arrive? && u == t)
  {
    var g' := Apply(g, e);
    assert g'.admitted == g.admitted || g'.admitted == g.admitted + [t];
  }

  /** When an operation is admitted, nothing more urgent is left waiting, and nothing as urgent that
      came before it. */
  lemma AdmitsTheMostUrgent(events: seq<Event>, e: Event, t: Ticket, u: Ticket)
    requires After(events + [e]).Some? && After(events).Some?
    requires After(events + [e]).value.admitted == After(events).value.admitted + [t]
    requires u in After(events + [e]).value.waiting
    ensures t.priority <= u.priority && (t.priority == u.priority ==> t.sequence < u.sequence)
  {
    LastStep(events, e);
    var g := After(events).value;
    var g' := Apply(g, e);
    assert g'.admitted[|g.admitted|] == t;
  }

  lemma NumbersAreNew(events: seq<Event>)
    requires After(events).Some?
    ensures forall t | t in After(events).value.waiting :: t.sequence < After(events).value.nextSequence
  {
    RunKeepsInvariant(events);
  }

  /** Exactly when a thread that arrives or is woken is admitted: if nothing is in progress, and whoever
      else waits is less urgent, or as urgent and later. */
  lemma AdmittedExactly(events: seq<Event>, e: Event, t: Ticket)
    requires After(events + [e]).Some? && After(events).Some? && !e.Leave?
    requires t == if e.Arrive? then Ticket(e.priority, |Arrivals(events)|) else e.ticket
    ensures var g, g' := After(events).value, After(events + [e]).value;
      if g.running == {} && forall u | u in g.waiting && u != t ::
          t.priority < u.priority || (t.priority == u.priority && t.sequence < u.sequence)
      then g'.running == {t} && g'.admitted == g.admitted + [t] && g'.waiting == g.waiting - {t}
      else g'.running == g.running && g'.admitted == g.admitted && g'.waiting == g.waiting + {t}
  {
    hide After, Attempt;
    LastStep(events, e);
    var g := After(events).value;
    MutualExclusion(events);
    TicketsAreRequests(events);
    NumbersAreNew(events);
    var g0 := if e.Arrive? then g.(waiting := g.waiting + {t}, nextSequence := g.nextSequence + 1) else g;
    AttemptAdmits(g0, t);
    if e.Arrive? {
      assert g.waiting + {t} - {t} == g.waiting - {t};
    } else {
      assert g.waiting + {t} == g.waiting;
    }
  }

  lemma LastStep(events: seq<Event>, e: Event)
    requires After(events + [e]).Some?
    ensures After(events).Some? && Enabled(After(events).value, e)
    ensures After(events + [e]) == Some(Apply(After(events).value, e))
  {
    assert (events + [e])[..|events|] == events;
  }

  lemma AttemptAdmits(g: Gate, t: Ticket)
    requires t in g.waiting
    ensures var g' := Attempt(g, t);
      if !g.active && forall u | u in g.waiting && u != t ::
          t.priority < u.priority || (t.priority == u.priority && t.sequence < u.sequence)
      then g'.running == g.running + {t} && g'.admitted == g.admitted + [t] && g'.waiting == g.waiting - {t}
      else g'.running == g.running && g'.admitted == g.admitted && g'.waiting == g.waiting
  {
  }

  lemma {:induction false} PrefixRuns(events: seq<Event>, n: nat)
    requires After(events).Some? && n < |events|
    ensures After(events[..n]).Some? && Enabled(After(events[..n]).value, events[n])
    decreases |events|
  {
    hide Enabled, Apply;
    var last := |events| - 1;
    if n < last {
      PrefixRuns(events[..last], n);
      assert events[..last][..n] == events[..n];
    }
  }

  predicate LeavesWithin(events: seq<Event>, i: nat, n: nat) {
    exists k :: i < k < n <= |events| && events[k].Leave?
  }

  /** The ticket that a thread arrives or comes back with. */
  function TicketOf(events: seq<Event>, i: nat): Ticket
    requires i < |events|
  {
    match events[i]
    case Arrive(priority) => Ticket(priority, |Arrivals(events[..i])|)
    case Resume(t) => t
    case Leave(t) => t
  }

  lemma {:induction false} StaysAsleep(events: seq<Event>, i: nat, n: nat, t: Ticket)
    requires After(events).Some? && i < n <= |events| && !events[i].Leave? && t == TicketOf(events, i)
    requires !LeavesWithin(events, i, n)
    ensures After(events[..n]).Some?
    ensures t in After(events[..n]).value.waiting ==> t in After(events[..n]).value.blocked
    ensures t.sequence < After(events[..n]).value.nextSequence
    decreases n
  {
    hide Enabled, Apply, After, Invariant, LeavesWithin;
    PrefixRuns(events, n - 1);
    Extend(events[..n - 1], events[n - 1]);
    assert events[..n - 1] + [events[n - 1]] == events[..n];
    TicketsAreRequests(events[..n - 1]);
    RunKeepsInvariant(events[..n - 1]);
    var g := After(events[..n - 1]).value;
    if n - 1 > i {
      NoLeaveSoFar(events, i, n);
      StaysAsleep(events, i, n - 1, t);
      SleepsOn(g, events[n - 1], t);
    } else {
      FallsAsleep(g, events[i], t);
    }
  }

  lemma NoLeaveSoFar(events: seq<Event>, i: nat, n: nat)
    requires i < n - 1 < n <= |events| && !LeavesWithin(events, i, n)
    ensures !LeavesWithin(events, i, n - 1) && !events[n - 1].Leave?
  {
  }

  lemma FallsAsleep(g: Gate, e: Event, t: Ticket)
    requires Conserved(g) && Enabled(g, e) && !e.Leave?
    requires t == if e.Arrive? then Ticket(e.priority, g.nextSequence) else e.ticket
    ensures t in Apply(g, e).waiting ==> t in Apply(g, e).blocked
    ensures t.sequence < Apply(g, e).nextSequence
  {
  }

  lemma SleepsOn(g: Gate, e: Event, t: Ticket)
    requires Enabled(g, e) && !e.Leave? && t.sequence < g.nextSequence && (t in g.waiting ==> t in g.blocked)
    ensures t in Apply(g, e).waiting ==> t in Apply(g, e).blocked
    ensures t.sequence < Apply(g, e).nextSequence
  {
  }

  /** A waiter sleeps until someone leaves: it looks at the gate again only after an operation is over. */
  lemma WaitersSleep(events: seq<Event>, i: nat, j: nat)
    requires After(events).Some? && i < j < |events| && !events[i].Leave? && events[j] == Resume(TicketOf(events, i))
    ensures LeavesWithin(events, i, j)
  {
    if !LeavesWithin(events, i, j) {
      StaysAsleep(events, i, j, TicketOf(events, i));
      PrefixRuns(events, j);
    }
  }

  /** No wakeup is lost: an idle gate with waiters always has a thread that can take
      the next step, and that step admits the most urgent, the earliest among equals. */
  lemma IdleGateProgresses(events: seq<Event>) returns (head: Ticket)
    requires After(events).Some?
    requires !After(events).value.active && After(events).value.waiting != {}
    ensures head in After(events).value.waiting
    ensures forall u | u in After(events).value.waiting && u != head ::
      head.priority < u.priority || (head.priority == u.priority && head.sequence < u.sequence)
    ensures Enabled(After(events).value, Resume(head))
    ensures Apply(After(events).value, Resume(head)).running == {head}
    ensures head !in Apply(After(events).value, Resume(head)).waiting
  {
    RunKeepsInvariant(events);
    head := LeastTicket(After(events).value.waiting);
  }

  lemma {:induction false} LeastTicket(waiting: set<Ticket>) returns (head: Ticket)
    requires waiting != {}
    requires forall t, u | t in waiting && u in waiting && t.sequence == u.sequence :: t == u
    ensures IsHead(head, waiting)
    decreases |waiting|
  {
    var t :| t in waiting;
    var rest := waiting - {t};
    if rest == {} {
      assert waiting == {t};
      head := t;
    } else {
      var least := LeastTicket(rest);
      assert forall u | u in waiting :: u == t || u in rest;
      head := if Before(least, t) then least else t;
    }
  }

  // ---- the gate object

  lemma Extend(events: seq<Event>, e: Event)
    requires After(events).Some? && Enabled(After(events).value, e)
    ensures After(events + [e]) == Some(Apply(After(events).value, e))
  {
    assert (events + [e])[..|events|] == events;
  }

  /** `blocked`, `running`, `admitted` and `trace` describe the threads around the gate and are ghost;
      the program's own fields are the first three. The gate is always where its trace has come. */
  class InferenceScheduler {
    var waiting: set<Ticket>
    var nextSequence: nat
    var active: bool
    ghost var blocked: set<Ticket>
    ghost var running: set<Ticket>
    ghost var admitted: seq<Ticket>
    ghost var trace: seq<Event>

    ghost function View(): Gate
      reads this
    {
      Gate(waiting, blocked, nextSequence, active, running, admitted)
    }

    ghost predicate Valid()
      reads this
    {
      After(trace) == Some(View())
    }

    constructor ()
      ensures Valid() && trace == []
    {
      waiting, nextSequence, active := {}, 0, false;
      blocked, running, admitted, trace := {}, {}, [], [];
    }

    /** Push a ticket and test the wait loop once. */
    method Enter(priority: nat) returns (ticket: Ticket, admittedNow: bool)
      requires Valid()
      modifies this
      ensures Valid() && trace == old(trace) + [Arrive(priority)]
      ensures ticket == Ticket(priority, old(nextSequence)) && ticket !in old(waiting)
      ensures admittedNow <==> old(running) == {} && forall u | u in old(waiting) :: priority < u.priority
      ensures running == if admittedNow then {ticket} else old(running)
    {
      hide After;
      MutualExclusion(trace);
      NumbersAreNew(trace);
      Extend(trace, Arrive(priority));
      ticket := Ticket(priority, nextSequence);
      waiting, nextSequence := waiting + {ticket}, nextSequence + 1;
      admittedNow := TestLoop(ticket);
      trace := trace + [Arrive(priority)];
    }

    /** A notified thread holds the lock again and tests the wait loop. */
    method WakeUp(ticket: Ticket) returns (admittedNow: bool)
      requires Valid() && Enabled(View(), Resume(ticket))
      modifies this
      ensures Valid() && trace == old(trace) + [Resume(ticket)]
      ensures admittedNow <==> old(running) == {} && forall u | u in old(waiting) && u != ticket ::
        ticket.priority < u.priority || (ticket.priority == u.priority && ticket.sequence < u.sequence)
      ensures running == if admittedNow then {ticket} else old(running)
    {
      hide After;
      MutualExclusion(trace);
      Extend(trace, Resume(ticket));
      admittedNow := TestLoop(ticket);
      trace := trace + [Resume(ticket)];
    }

    method TestLoop(ticket: Ticket) returns (admittedNow: bool)
      requires ticket in waiting
      modifies this`waiting, this`active, this`blocked, this`running, this`admitted
      ensures View() == Attempt(old(View()), ticket)
      ensures admittedNow <==> !old(active) && IsHead(ticket, old(waiting))
    {
      if active || !IsHead(ticket, waiting) {
        blocked := blocked + {ticket};
        return false;
      }
      waiting, active := waiting - {ticket}, true;
      blocked, running, admitted := blocked - {ticket}, running + {ticket}, admitted + [ticket];
      return true;
    }

    /** The `finally` clause: the operation is over, however it ended. Nothing is in progress, every
        waiter is awake, and the first of them will be admitted when it looks. */
    method Exit(ticket: Ticket)
      requires Valid() && Enabled(View(), Leave(ticket))
      modifies this
      ensures Valid() && trace == old(trace) + [Leave(ticket)]
      ensures running == {} && waiting == old(waiting) && forall t | t in waiting :: Enabled(View(), Resume(t))
      ensures forall t | t in waiting ::
        (forall u | u in waiting && u != t ::
           t.priority < u.priority || (t.priority == u.priority && t.sequence < u.sequence)) ==>
        Apply(View(), Resume(t)).running == {t}
    {
      hide After;
      OnlyOperation(trace, ticket);
      Extend(trace, Leave(ticket));
      active := false;
      running, blocked := running - {ticket}, {};
      trace := trace + [Leave(ticket)];
    }
  }

  lemma OnlyOperation(events: seq<Event>, t: Ticket)
    requires After(events).Some? && t in After(events).value.running
    ensures After(events).value.running == {t}
  {
    MutualExclusion(events);
    var running := After(events).value.running;
    if u :| u in running && u != t {
      assert {t, u} <= running && |{t, u}| == 2;
      SmallerSubset({t, u}, running);
      assert false;
    }
  }

  lemma {:induction false} SmallerSubset(a: set<Ticket>, b: set<Ticket>)
    requires a <= b
    ensures |a| <= |b|
    decreases |a|
  {
    if t :| t in a {
      SmallerSubset(a - {t}, b - {t});
    }
  }

  /** Every run of the machine is one of the object: a fresh gate taken through the events ends where
      the machine ends. */
  method RunGate(events: seq<Event>) returns (gate: InferenceScheduler)
    requires After(events).Some?
    ensures gate.Valid() && gate.trace == events && Some(gate.View()) == After(events)
  {
    hide After, Enabled, Apply;
    gate := new InferenceScheduler();
    for n := 0 to |events|
      invariant fresh(gate) && gate.Valid() && gate.trace == events[..n]
    {
      PrefixRuns(events, n);
      match events[n] {
        case Arrive(priority) => var _, _ := gate.Enter(priority);
        case Resume(ticket) => var _ := gate.WakeUp(ticket);
        case Leave(ticket) => gate.Exit(ticket);
      }
      assert events[..n + 1] == events[..n] + [events[n]];
    }
    assert events[..|events|] == events;
  }
}
