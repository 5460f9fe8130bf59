/** How one voice turn hands over to the next: `_turn_is_active`, the accepting half of
    `_process_segment`, `_dispatch_prompt` and `_complete_prompt` in ron/voice/service.py.

    The listener thread and any number of response threads interleave at the points
    where the program reads or writes shared fields. A critical section is one step,
    except the last one of `_complete_prompt`: it starts the next thread while it still
    holds the lock, and a started thread calls the prompt handler without taking it.
 */
module TurnHandoff {

  import opened Common

  type Request = nat
  type ThreadId = nat

  /** `_speech_completion`: no event, an event not yet set, an event already set. */
  datatype Completion = NoSpeech | Speaking | SpeechDone

  /** Where the listener is in accepting one request. */
  datatype Listener =
    | Listening
    | FoundIdle(request: Request)    // saw no active turn; dispatches next
    | FoundBusy(request: Request)    // saw an active turn; takes the lock next
    | Dispatched(thread: ThreadId)   // flag set under the lock; thread not started yet

  /** Where a response thread is in `_complete_prompt`. */
  datatype Stage =
    | Created       // registered, not started
    | Started       // running, before the prompt handler
    | Handling      // inside the prompt handler
    | Replied       // after the `finally` section: waiting for speech to end
    | Settled       // after `_speech_completion = None`
    | HandingOver   // in the last section, next thread started, lock still held
    | Finished

  datatype Response = Response(request: Request, stage: Stage)

  datatype Turns = Turns(
    responseActive: bool,
    readying: bool,
    completion: Completion,
    pending: Option<Request>,
    stopped: bool,
    locked: bool,                         // the lock is held across the handover
    listener: Listener,
    threads: seq<Response>,               // indexed by thread id, in order of creation
    nextRequest: Request,
    accepted: set<Request>,
    handled: seq<Request>,                // in order of the prompt handler calls
    superseded: set<Request>,
    dropped: set<Request>)

  datatype Event =
    | Hear(turnActive: bool)              // a command is understood; first look at the turn
    | Ignore                              // interrupt phrase, or a busy turn without replacement
    | AcceptUnderLock(request: Request)   // busy turn: queue, or find it over after all
    | Dispatch                            // `_dispatch_prompt` by the listener, up to the lock's release
    | StartThread                         // `thread.start()`
    | CallHandler(thread: ThreadId)
    | HandlerReturns(thread: ThreadId, completion: Completion)
    | SpeechEnds
    | Settle(thread: ThreadId)
    | TakePending(thread: ThreadId)
    | ReleaseHandover(thread: ThreadId)
    | Stop

  const QUIET := Turns(false, false, NoSpeech, None, false, false, Listening, [], 0, {}, [], {}, {})

  /** `_turn_is_active`. */
  predicate TurnIsActive(s: Turns) {
    s.responseActive || s.readying || s.completion == Speaking
  }

  predicate At(s: Turns, t: ThreadId, stage: Stage) {
    t < |s.threads| && s.threads[t].stage == stage
  }

  predicate Enabled(s: Turns, e: Event) {
    match e
    case Hear(turnActive) => s.listener == Listening && !s.locked && turnActive == TurnIsActive(s)
    case Ignore => s.listener.FoundBusy?
    case AcceptUnderLock(r) => s.listener == FoundBusy(r) && !s.locked
    case Dispatch => s.listener.FoundIdle? && !s.locked
    case StartThread => s.listener.Dispatched? && At(s, s.listener.thread, Created)
    case CallHandler(t) => At(s, t, Started)
    case HandlerReturns(t, _) => At(s, t, Handling) && !s.locked
    case SpeechEnds => s.completion == Speaking
    case Settle(t) => At(s, t, Replied) && !s.locked && (s.completion != Speaking || s.stopped)
    case TakePending(t) => At(s, t, Settled) && !s.locked
    case ReleaseHandover(t) => At(s, t, HandingOver) && s.locked
    case Stop => true
  }

  function Move(s: Turns, t: ThreadId, stage: Stage): Turns
    requires t < |s.threads|
  {
    s.(threads := s.threads[t := s.threads[t].(stage := stage)])
  }

  /** What `_dispatch_prompt` does under the lock. */
  function Register(s: Turns, r: Request, stage: Stage): Turns {
    s.(responseActive := true, threads := s.threads + [Response(r, stage)])
  }

  function Apply(s: Turns, e: Event): Turns
    requires Enabled(s, e)
  {
    match e
    case Hear(turnActive) =>
      var r := s.nextRequest;
      s.(nextRequest := r + 1, listener := if turnActive then FoundBusy(r) else FoundIdle(r))
    case Ignore => s.(listener := Listening)
    case AcceptUnderLock(r) =>
      if TurnIsActive(s) then
        s.(pending := Some(r), accepted := s.accepted + {r}, listener := Listening,
           superseded := s.superseded + if s.pending.Some? then {s.pending.value} else {})
      else
        s.(listener := FoundIdle(r))
    case Dispatch =>
      var r := s.listener.request;
      Register(s, r, Created).(accepted := s.accepted + {r}, listener := Dispatched(|s.threads|))
    case StartThread =>
      Move(s, s.listener.thread, Started).(listener := Listening)
    case CallHandler(t) =>
      Move(s, t, Handling).(handled := s.handled + [s.threads[t].request])
    case HandlerReturns(t, completion) =>
      Move(s, t, Replied).(readying := true, completion := completion, responseActive := false)
    case SpeechEnds => s.(completion := SpeechDone)
    case Settle(t) => Move(s, t, Settled).(completion := NoSpeech)
    case TakePending(t) =>
      var taken := s.(pending := None);
      if s.pending.Some? && !s.stopped then
        Register(Move(taken, t, HandingOver), s.pending.value, Started).(locked := true)
      else
        Move(taken, t, Finished).(readying := false,
          dropped := s.dropped + if s.pending.Some? then {s.pending.value} else {})
    case ReleaseHandover(t) => Move(s, t, Finished).(readying := false, locked := false)
    case Stop => s.(stopped := true)
  }

  /** The state after a run, or None when the threads cannot perform that run. */
  function After(events: seq<Event>): Option<Turns> {
    if events == [] then Some(QUIET)
    else
      var last := |events| - 1;
      match After(events[..last])
      case None => None
      case Some(s) => if Enabled(s, events[last]) then Some(Apply(s, events[last])) else None
  }

  // ---- the invariant

  /** Stages in which a thread still owes the turn its handler call or its clean-up. */
  predicate Fresh(stage: Stage) { stage.Created? || stage.Started? || stage.Handling? }
  predicate CleaningUp(stage: Stage) { stage.Replied? || stage.Settled? }

  predicate InFlight(s: Turns, t: ThreadId) {
    t < |s.threads| && s.threads[t].stage != Finished
  }

  /** Threads are created only by a turn that has nothing left to do, so in flight there is
      only the newest thread, and during a handover the one before it. */
  ghost predicate OneTurn(s: Turns) {
    && (forall t | 0 <= t < |s.threads| - 2 :: s.threads[t].stage == Finished)
    && (|s.threads| >= 2 ==> s.threads[|s.threads| - 2].stage == if s.locked then HandingOver else Finished)
    && (|s.threads| >= 1 ==> !s.threads[|s.threads| - 1].stage.HandingOver?)
    && (s.locked ==> |s.threads| >= 2 && Newest(s).stage in {Started, Handling})
  }

  function Newest(s: Turns): Response
    requires |s.threads| > 0
  {
    s.threads[|s.threads| - 1]
  }

  /** The three shared flags say exactly how far the newest thread has come. */
  ghost predicate FlagsTrackTheTurn(s: Turns) {
    && (s.responseActive <==> |s.threads| > 0 && Fresh(Newest(s).stage))
    && (s.readying <==> s.locked || (|s.threads| > 0 && CleaningUp(Newest(s).stage)))
    && (s.completion != NoSpeech ==> |s.threads| > 0 && Newest(s).stage.Replied?)
  }

  ghost predicate ListenerInStep(s: Turns) {
    && (s.listener.FoundIdle? ==> !TurnIsActive(s))
    && (s.listener.FoundIdle? || s.listener.FoundBusy? ==>
          s.listener.request + 1 == s.nextRequest && s.listener.request !in s.accepted)
    && (s.listener.Dispatched? <==> |s.threads| > 0 && Newest(s).stage.Created?)
    && (s.listener.Dispatched? ==> s.listener.thread == |s.threads| - 1)
  }

  /** The request still waiting for its handler call: of the newest thread, if it has not made it. */
  ghost function Awaiting(s: Turns): set<Request> {
    if |s.threads| > 0 && Newest(s).stage in {Created, Started} then {Newest(s).request} else {}
  }

  ghost function Queued(s: Turns): set<Request> {
    if s.pending.Some? then {s.pending.value} else {}
  }

  /** Every accepted request has exactly one fate, and no request has one without being accepted. */
  ghost predicate OneFateEach(s: Turns) {
    && (forall r | r in s.accepted :: r < s.nextRequest)
    && s.accepted == Queued(s) + Awaiting(s) + (set r | r in s.handled) + s.superseded + s.dropped
    && Queued(s) !! Awaiting(s) !! s.superseded !! s.dropped
    && (forall r | r in s.handled :: r !in Queued(s) + Awaiting(s) + s.superseded + s.dropped)
    && (s.dropped != {} ==> s.stopped)
  }

  /** Requests reach the handler in the order they were heard. */
  ghost predicate InOrder(s: Turns) {
    && (forall i, j | 0 <= i < j < |s.handled| :: s.handled[i] < s.handled[j])
    && (forall i, r | 0 <= i < |s.handled| && r in Awaiting(s) + Queued(s) :: s.handled[i] < r)
    && (forall r, q | r in Awaiting(s) && q in Queued(s) :: r < q)
  }

  ghost predicate Invariant(s: Turns) {
    && InOrder(s)
    && OneTurn(s) && FlagsTrackTheTurn(s) && ListenerInStep(s) && OneFateEach(s)
    && (s.pending.Some? ==> TurnIsActive(s))
  }

  /** A move of the newest thread that does not begin or end a handover. */
  lemma MoveKeepsOneTurn(s: Turns, s': Turns, stage: Stage)
    requires OneTurn(s) && |s.threads| > 0 && !stage.HandingOver? && s'.locked == s.locked
    requires s'.threads == s.threads[|s.threads| - 1 := Newest(s).(stage := stage)]
    requires s.locked ==> stage in {Started, Handling}
    ensures OneTurn(s')
  {
  }

  lemma DispatchKeepsOneTurn(s: Turns)
    requires Invariant(s) && Enabled(s, Dispatch)
    ensures OneTurn(Apply(s, Dispatch))
  {
    hide InOrder, OneFateEach;
  }

  lemma TakingKeepsOneTurn(s: Turns, t: ThreadId)
    requires Invariant(s) && Enabled(s, TakePending(t))
    ensures OneTurn(Apply(s, TakePending(t)))
  {
    hide InOrder, OneFateEach;
  }

  lemma ReleasingKeepsOneTurn(s: Turns, t: ThreadId)
    requires Invariant(s) && Enabled(s, ReleaseHandover(t))
    ensures OneTurn(Apply(s, ReleaseHandover(t)))
  {
    hide InOrder, OneFateEach;
  }

  /** The moves of a response thread between its start and its last section are the newest thread's. */
  lemma MovingKeepsOneTurn(s: Turns, e: Event)
    requires Invariant(s) && Enabled(s, e) && (e.StartThread? || e.CallHandler? || e.HandlerReturns? || e.Settle?)
    ensures OneTurn(Apply(s, e))
  {
    hide InOrder, OneFateEach;
    var stage := if e.StartThread? then Started else if e.CallHandler? then Handling
                 else if e.HandlerReturns? then Replied else Settled;
    MoveKeepsOneTurn(s, Apply(s, e), stage);
  }

  lemma ApplyKeepsOneTurn(s: Turns, e: Event)
    requires Invariant(s) && Enabled(s, e)
    ensures OneTurn(Apply(s, e))
  {
    hide InOrder, OneFateEach, FlagsTrackTheTurn, ListenerInStep;
    match e
    case Dispatch => DispatchKeepsOneTurn(s);
    case TakePending(t) => TakingKeepsOneTurn(s, t);
    case ReleaseHandover(t) => ReleasingKeepsOneTurn(s, t);
    case StartThread => MovingKeepsOneTurn(s, e);
    case CallHandler(_) => MovingKeepsOneTurn(s, e);
    case HandlerReturns(_, _) => MovingKeepsOneTurn(s, e);
    case Settle(_) => MovingKeepsOneTurn(s, e);
    case _ => assert Apply(s, e).threads == s.threads && Apply(s, e).locked == s.locked;
  }

  lemma ApplyKeepsFlags(s: Turns, e: Event)
    requires Invariant(s) && Enabled(s, e)
    ensures FlagsTrackTheTurn(Apply(s, e))
    ensures Apply(s, e).pending.Some? ==> TurnIsActive(Apply(s, e))
  {
    hide InOrder, OneFateEach;
  }

  lemma ApplyKeepsListener(s: Turns, e: Event)
    requires Invariant(s) && Enabled(s, e)
    ensures ListenerInStep(Apply(s, e))
  {
    hide InOrder;
  }

  /** A step that leaves the ledger and the waiting requests alone keeps every fate. */
  lemma SameFates(s: Turns, s': Turns)
    requires OneFateEach(s)
    requires s'.accepted == s.accepted && s'.handled == s.handled && s'.pending == s.pending
    requires s'.superseded == s.superseded && s'.dropped == s.dropped
    requires s'.nextRequest >= s.nextRequest && (s.stopped ==> s'.stopped)
    requires Awaiting(s') == Awaiting(s)
    ensures OneFateEach(s')
  {
  }

  lemma QueueingKeepsFates(s: Turns, r: Request)
    requires Invariant(s) && Enabled(s, AcceptUnderLock(r))
    ensures OneFateEach(Apply(s, AcceptUnderLock(r)))
  {
    var s' := Apply(s, AcceptUnderLock(r));
    if TurnIsActive(s) {
      assert Awaiting(s') == Awaiting(s);
      assert s'.superseded == s.superseded + Queued(s);
      assert Queued(s') == {r};
    } else {
      SameFates(s, s');
    }
  }

  lemma CallingKeepsFates(s: Turns, t: ThreadId)
    requires Invariant(s) && Enabled(s, CallHandler(t))
    ensures OneFateEach(Apply(s, CallHandler(t)))
  {
    hide InOrder, FlagsTrackTheTurn, ListenerInStep;
    var s' := Apply(s, CallHandler(t));
    var r := Newest(s).request;
    assert t == |s.threads| - 1;
    assert Awaiting(s) == {r} && Awaiting(s') == {} && Queued(s') == Queued(s);
    assert (set q | q in s'.handled) == (set q | q in s.handled) + {r};
  }

  lemma TakingKeepsFates(s: Turns, t: ThreadId)
    requires Invariant(s) && Enabled(s, TakePending(t))
    ensures OneFateEach(Apply(s, TakePending(t)))
  {
    hide InOrder;
    var s' := Apply(s, TakePending(t));
    assert t == |s.threads| - 1 && Awaiting(s) == {};
    if s.pending.Some? && !s.stopped {
      assert Awaiting(s') == Queued(s) && Queued(s') == {};
    } else {
      assert Awaiting(s') == {} && s'.dropped == s.dropped + Queued(s);
    }
  }

  lemma DispatchKeepsFates(s: Turns)
    requires Invariant(s) && Enabled(s, Dispatch)
    ensures OneFateEach(Apply(s, Dispatch))
  {
    hide InOrder;
    assert Awaiting(s) == {} && Queued(s) == {};
    assert Awaiting(Apply(s, Dispatch)) == {s.listener.request};
  }

  lemma ApplyKeepsFates(s: Turns, e: Event)
    requires Invariant(s) && Enabled(s, e)
    ensures OneFateEach(Apply(s, e))
  {
    hide InOrder, OneFateEach;
    match e
    case AcceptUnderLock(r) => QueueingKeepsFates(s, r);
    case Dispatch => DispatchKeepsFates(s);
    case CallHandler(t) => CallingKeepsFates(s, t);
    case TakePending(t) => TakingKeepsFates(s, t);
    case _ => SameFates(s, Apply(s, e));
  }

  lemma AcceptingKeepsOrder(s: Turns, e: Event)
    requires Invariant(s) && Enabled(s, e) && (e.AcceptUnderLock? || e.Dispatch?)
    ensures InOrder(Apply(s, e))
  {
    var s', newest := Apply(s, e), s.listener.request;
    assert s'.handled == s.handled;
    forall i | 0 <= i < |s.handled| ensures s.handled[i] < newest {
      assert s.handled[i] in s.accepted;
    }
    forall r | r in Awaiting(s) ensures r < newest {
      assert r in s.accepted;
    }
    if e.Dispatch? {
      assert Awaiting(s') == {newest} && Queued(s') == {};
    } else if TurnIsActive(s) {
      assert Awaiting(s') == Awaiting(s) && Queued(s') == {newest};
    } else {
      assert Awaiting(s') == Awaiting(s) && Queued(s') == Queued(s);
    }
    forall i, r | 0 <= i < |s'.handled| && r in Awaiting(s') + Queued(s') ensures s'.handled[i] < r {
      assert r == newest || r in Awaiting(s) + Queued(s);
    }
  }

  lemma CallingKeepsOrder(s: Turns, t: ThreadId)
    requires Invariant(s) && Enabled(s, CallHandler(t))
    ensures InOrder(Apply(s, CallHandler(t)))
  {
    var s' := Apply(s, CallHandler(t));
    assert t == |s.threads| - 1;
    assert Newest(s).request in Awaiting(s) + Queued(s);
    assert Awaiting(s') == {} && Queued(s') == Queued(s);
  }

  lemma ApplyKeepsOrder(s: Turns, e: Event)
    requires Invariant(s) && Enabled(s, e)
    ensures InOrder(Apply(s, e))
  {
    hide OneFateEach;
    if e.AcceptUnderLock? || e.Dispatch? {
      AcceptingKeepsOrder(s, e);
    } else if e.CallHandler? {
      CallingKeepsOrder(s, e.thread);
    } else {
      WaitingStaysOrder(s, e);
    }
  }

  /** Where nothing is accepted and no handler is called, requests only move on from the queue. */
  lemma WaitingStaysOrder(s: Turns, e: Event)
    requires Invariant(s) && Enabled(s, e) && !e.AcceptUnderLock? && !e.Dispatch? && !e.CallHandler?
    ensures InOrder(Apply(s, e))
  {
    hide OneFateEach, ListenerInStep;
    var s' := Apply(s, e);
    assert s'.handled == s.handled;
    if e.TakePending? {
      assert Queued(s') == {} && Awaiting(s') <= Awaiting(s) + Queued(s);
    } else {
      assert Awaiting(s') == Awaiting(s) && Queued(s') == Queued(s);
    }
    assert Awaiting(s') + Queued(s') <= Awaiting(s) + Queued(s);
  }

  /** Every interleaving of the listener with its response threads keeps the invariant. */
  lemma {:induction false} RunKeepsInvariant(events: seq<Event>)
    requires After(events).Some?
    ensures Invariant(After(events).value)
  {
    if events == [] {
    } else {
      var last := |events| - 1;
      RunKeepsInvariant(events[..last]);
      var s := After(events[..last]).value;
      ApplyKeepsOneTurn(s, events[last]);
      ApplyKeepsFlags(s, events[last]);
      ApplyKeepsListener(s, events[last]);
      ApplyKeepsFates(s, events[last]);
      ApplyKeepsOrder(s, events[last]);
    }
  }

  // ---- what the service promises

  lemma HandlerIsTheNewestThread(s: Turns, t: ThreadId)
    requires OneTurn(s) && At(s, t, Handling)
    ensures t == |s.threads| - 1
  {
  }

  /** At most one prompt handler call is in progress. */
  lemma OneHandlerAtATime(events: seq<Event>, t: ThreadId, u: ThreadId)
    requires After(events).Some?
    requires At(After(events).value, t, Handling) && At(After(events).value, u, Handling)
    ensures t == u
  {
    RunKeepsInvariant(events);
    HandlerIsTheNewestThread(After(events).value, t);
    HandlerIsTheNewestThread(After(events).value, u);
  }

  /** The turn reads as active exactly while some response thread has not finished:
      there is no gap from dispatch to the last critical section, and no stuck flag after it. */
  lemma ActiveExactlyWhileInFlight(events: seq<Event>)
    requires After(events).Some?
    ensures TurnIsActive(After(events).value) <==> exists t :: InFlight(After(events).value, t)
  {
    hide InOrder, OneFateEach, ListenerInStep;
    RunKeepsInvariant(events);
    ActiveMeansInFlight(After(events).value);
  }

  lemma ActiveMeansInFlight(s: Turns)
    requires OneTurn(s) && FlagsTrackTheTurn(s)
    ensures TurnIsActive(s) <==> exists t :: InFlight(s, t)
  {
    if |s.threads| > 0 && Newest(s).stage != Finished {
      assert InFlight(s, |s.threads| - 1);
    }
  }

  /** A queued request always has a turn in flight that will look at it. */
  lemma QueuedMeansInFlight(events: seq<Event>)
    requires After(events).Some? && After(events).value.pending.Some?
    ensures exists t :: InFlight(After(events).value, t)
  {
    RunKeepsInvariant(events);
    ActiveExactlyWhileInFlight(events);
  }

  /** Requests are handled at most once and in the order they were heard; and when no turn is
      in flight every accepted request has been handled, was superseded, or was dropped by stop. */
  lemma EveryRequestHasOneFate(events: seq<Event>)
    requires After(events).Some?
    ensures var s := After(events).value;
            && (forall i, j | 0 <= i < j < |s.handled| :: s.handled[i] < s.handled[j])
            && (forall r | r in s.handled :: r in s.accepted && r !in s.superseded && r !in s.dropped)
            && s.superseded !! s.dropped
            && (s.dropped != {} ==> s.stopped)
            && (!TurnIsActive(s) ==> s.accepted == (set r | r in s.handled) + s.superseded + s.dropped)
  {
    RunKeepsInvariant(events);
  }

  /** A request is superseded only while queued, and only by one heard after it. */
  lemma SupersededByALaterRequest(events: seq<Event>, e: Event, r: Request)
    requires After(events).Some? && Enabled(After(events).value, e)
    requires r in Apply(After(events).value, e).superseded && r !in After(events).value.superseded
    ensures After(events).value.pending == Some(r)
    ensures Apply(After(events).value, e).pending.Some? && r < Apply(After(events).value, e).pending.value
  {
    hide InOrder, OneTurn, FlagsTrackTheTurn;
    RunKeepsInvariant(events);
    OnlyQueueingSupersedes(After(events).value, e, r);
  }

  lemma OnlyQueueingSupersedes(s: Turns, e: Event, r: Request)
    requires Invariant(s) && Enabled(s, e) && r in Apply(s, e).superseded && r !in s.superseded
    ensures s.pending == Some(r) && Apply(s, e).pending.Some? && r < Apply(s, e).pending.value
  {
    hide InOrder, OneTurn, FlagsTrackTheTurn;
    assert e.AcceptUnderLock?;
    assert r in Queued(s);
  }

  // ---- the speech of a reply

  lemma Extend(events: seq<Event>, e: Event)
    requires After(events).Some? && Enabled(After(events).value, e)
    ensures After(events + [e]) == Some(Apply(After(events).value, e))
  {
    assert (events + [e])[..|events|] == events;
  }

  lemma {:induction false} PrefixRuns(events: seq<Event>, n: nat)
    requires After(events).Some? && n < |events|
    ensures After(events[..n]).Some? && Enabled(After(events[..n]).value, events[n])
    decreases |events|
  {
    hide Enabled, Apply;
    var last := |events| - 1;
    if n < last {
      PrefixRuns(events[..last], n);
      assert events[..last][..n] == events[..n];
    }
  }

  /** The flag says whether the service was stopped. */
  lemma {:induction false} StoppedExactly(events: seq<Event>)
    requires After(events).Some?
    ensures After(events).value.stopped <==> Event.Stop in events
  {
    hide Apply, Enabled;
    if events == [] {
    } else {
      var last := |events| - 1;
      StoppedExactly(events[..last]);
      OnlyStopStops(After(events[..last]).value, events[last]);
      assert events == events[..last] + [events[last]];
    }
  }

  lemma OnlyStopStops(s: Turns, e: Event)
    requires Enabled(s, e)
    ensures Apply(s, e).stopped <==> s.stopped || e == Event.Stop
  {
  }

  predicate SpeechEndsWithin(events: seq<Event>, i: nat, n: nat) {
    exists k :: i < k < n <= |events| && events[k] == SpeechEnds
  }

  predicate SettlesWithin(events: seq<Event>, i: nat, n: nat, t: ThreadId) {
    exists k :: i < k < n <= |events| && events[k] == Settle(t)
  }

  /** Until its speech ends or it settles, a thread that replied with speech stays where it is. */
  lemma {:induction false} StillSpeaking(events: seq<Event>, i: nat, n: nat, t: ThreadId)
    requires After(events).Some? && i < n <= |events| && events[i] == HandlerReturns(t, Speaking)
    requires !SpeechEndsWithin(events, i, n) && !SettlesWithin(events, i, n, t)
    ensures After(events[..n]).Some? && After(events[..n]).value.completion == Speaking
    ensures At(After(events[..n]).value, t, Replied)
    decreases n
  {
    hide Enabled, Apply, Invariant, After;
    PrefixRuns(events, n - 1);
    Extend(events[..n - 1], events[n - 1]);
    assert events[..n - 1] + [events[n - 1]] == events[..n];
    if n - 1 > i {
      StillSpeaking(events, i, n - 1, t);
      RunKeepsInvariant(events[..n - 1]);
      SpeechGoesOn(After(events[..n - 1]).value, events[n - 1], t);
    } else {
      ReplyBegins(After(events[..n - 1]).value, t);
    }
  }

  lemma ReplyBegins(s: Turns, t: ThreadId)
    requires Enabled(s, HandlerReturns(t, Speaking))
    ensures var s' := Apply(s, HandlerReturns(t, Speaking)); s'.completion == Speaking && At(s', t, Replied)
  {
  }

  lemma SpeechGoesOn(s: Turns, e: Event, t: ThreadId)
    requires Invariant(s) && Enabled(s, e) && s.completion == Speaking && At(s, t, Replied)
    requires e != SpeechEnds && e != Settle(t)
    ensures Apply(s, e).completion == Speaking && At(Apply(s, e), t, Replied)
  {
    hide InOrder, OneFateEach, ListenerInStep;
    assert t == |s.threads| - 1;
  }

  /** A turn goes on until its reply has been heard out: between a reply with speech and the end of the
      wait for it the speech ends, unless the service was stopped before. */
  lemma SpeechIsHeardOut(events: seq<Event>, i: nat, j: nat, t: ThreadId)
    requires After(events).Some? && i < j < |events|
    requires events[i] == HandlerReturns(t, Speaking) && events[j] == Settle(t)
    ensures SpeechEndsWithin(events, i, j) || Event.Stop in events[..j]
  {
    hide Apply, After;
    var first := FirstSettle(events, i, j, t);
    PrefixRuns(events, first);
    StoppedExactly(events[..first]);
    if !SpeechEndsWithin(events, i, first) {
      StillSpeaking(events, i, first, t);
      assert Event.Stop in events[..first];
      assert events[..first] <= events[..j];
    }
  }

  lemma {:induction false} FirstSettle(events: seq<Event>, i: nat, j: nat, t: ThreadId) returns (first: nat)
    requires i < j < |events| && events[j] == Settle(t)
    ensures i < first <= j && events[first] == Settle(t) && !SettlesWithin(events, i, first, t)
  {
    first := i + 1;
    while events[first] != Settle(t)
      invariant i < first <= j && !SettlesWithin(events, i, first, t)
      decreases j - first
    {
      first := first + 1;
    }
  }

  /** The next request waits for it too: no handler is called after a reply with speech before that
      speech has ended, unless the service was stopped before. */
  lemma NextHandlerWaits(events: seq<Event>, i: nat, m: nat, t: ThreadId, u: ThreadId)
    requires After(events).Some? && i < m < |events|
    requires events[i] == HandlerReturns(t, Speaking) && events[m] == CallHandler(u)
    ensures SpeechEndsWithin(events, i, m) || Event.Stop in events[..m]
  {
    hide Apply, After;
    PrefixRuns(events, m);
    RunKeepsInvariant(events[..m]);
    if SettlesWithin(events, i, m, t) {
      var j :| i < j < m && events[j] == Settle(t);
      SpeechIsHeardOut(events, i, j, t);
      assert events[..j] <= events[..m];
    } else if !SpeechEndsWithin(events, i, m) {
      StillSpeaking(events, i, m, t);
      NoneStartsBeside(After(events[..m]).value, t, u);
    }
  }

  lemma NoneStartsBeside(s: Turns, t: ThreadId, u: ThreadId)
    requires OneTurn(s) && At(s, t, Replied) && !s.locked
    ensures !At(s, u, Started)
  {
  }

  // ---- no thread is stuck

  /** What a thread of the service does next where it is. */
  function NextMove(s: Turns, t: ThreadId): Event
    requires InFlight(s, t)
  {
    match s.threads[t].stage
    case Created => StartThread
    case Started => CallHandler(t)
    case Handling => HandlerReturns(t, NoSpeech)
    case Replied => if s.completion == Speaking && !s.stopped then SpeechEnds else Settle(t)
    case Settled => TakePending(t)
    case _ => ReleaseHandover(t)
  }

  /** While a turn is active, some thread of it can go on, or the speech it waits for is under way; and
      while none is, the listener can take a request. The service can be stopped at any time. */
  lemma TheTurnGoesOn(events: seq<Event>) returns (e: Event)
    requires After(events).Some?
    ensures Enabled(After(events).value, e) && Enabled(After(events).value, Stop)
    ensures TurnIsActive(After(events).value) ==>
      exists t :: InFlight(After(events).value, t) && e == NextMove(After(events).value, t)
    ensures !TurnIsActive(After(events).value) ==> e == Hear(false) || e == Dispatch || e.AcceptUnderLock?
  {
    hide Invariant, Enabled, After;
    RunKeepsInvariant(events);
    var s := After(events).value;
    StopIsEnabled(s);
    if TurnIsActive(s) {
      var t := ActiveThread(s);
      e := NextMove(s, t);
    } else {
      e := ListenerGoesOn(s);
    }
  }

  lemma StopIsEnabled(s: Turns)
    ensures Enabled(s, Stop)
  {
  }

  lemma ActiveThread(s: Turns) returns (t: ThreadId)
    requires Invariant(s) && TurnIsActive(s)
    ensures InFlight(s, t) && Enabled(s, NextMove(s, t))
  {
    hide InOrder, OneFateEach;
    t := if s.locked then |s.threads| - 2 else |s.threads| - 1;
  }

  lemma ListenerGoesOn(s: Turns) returns (e: Event)
    requires Invariant(s) && !TurnIsActive(s)
    ensures Enabled(s, e) && (e == Hear(false) || e == Dispatch || e.AcceptUnderLock?)
  {
    hide InOrder, OneFateEach, OneTurn;
    e := match s.listener
      case FoundIdle(_) => Dispatch
      case FoundBusy(r) => AcceptUnderLock(r)
      case _ => Hear(false);
  }

  // ---- the service object

  /** What a thread of the service does under the lock. */
  predicate Locked(e: Event) {
    e.AcceptUnderLock? || e.Dispatch? || e.HandlerReturns? || e.Settle? || e.TakePending? || e.ReleaseHandover?
  }

  /** The shared fields of the service, with each critical section as a method. The ghost fields
      carry what the fields do not show: the threads, the ledger of requests, and all that has
      happened. The object is always where that run of the machine has come. */
  class VoiceService {
    var responseActive: bool
    var readying: bool
    var completion: Completion
    var pending: Option<Request>
    var stopped: bool
    ghost var rest: Turns
    ghost var trace: seq<Event>

    ghost function View(): Turns
      reads this
    {
      rest.(responseActive := responseActive, readying := readying, completion := completion, pending := pending,
            stopped := stopped)
    }

    ghost predicate Valid()
      reads this
    {
      After(trace) == Some(View())
    }

    constructor ()
      ensures Valid() && trace == []
    {
      responseActive, readying, completion, pending, stopped := false, false, NoSpeech, None, false;
      rest, trace := QUIET, [];
    }

    /** Enter in the trace what a section has just done. */
    ghost method Note(e: Event)
      requires After(trace).Some?
      requires Enabled(After(trace).value, e)
      requires var now := Apply(After(trace).value, e);
        now == now.(responseActive := responseActive, readying := readying, completion := completion,
          pending := pending, stopped := stopped)
      modifies this`rest, this`trace
      ensures Valid() && trace == old(trace) + [e] && View() == Apply(After(old(trace)).value, e)
    {
      Extend(trace, e);
      rest := Apply(After(trace).value, e);
      trace := trace + [e];
    }

    /** `_turn_is_active`: true exactly while some response thread has not finished. */
    predicate IsTurnActive()
      requires Valid()
      reads this
      ensures IsTurnActive() <==> exists t :: InFlight(View(), t)
    {
      ActiveExactlyWhileInFlight(trace);
      responseActive || readying || completion == Speaking
    }

    /** What happens outside the lock: the listener hears, threads start and call the handler,
        speech ends, the service is stopped. */
    method Elsewhere(e: Event)
      requires Valid() && Enabled(View(), e) && !Locked(e)
      modifies this
      ensures Valid() && trace == old(trace) + [e]
    {
      if e.SpeechEnds? {
        completion := SpeechDone;
      } else if e.Stop? {
        stopped := true;
      }
      Note(e);
    }

    /** The second look at the turn in `_process_segment`, under the lock. A queued request has a
        turn in flight that will look at it. */
    method QueueIfActive(request: Request) returns (queued: bool)
      requires Valid() && Enabled(View(), AcceptUnderLock(request))
      modifies this
      ensures Valid() && trace == old(trace) + [AcceptUnderLock(request)]
      ensures queued <==> exists t :: InFlight(View(), t)
      ensures queued <==> pending == Some(request) && View().listener == Listening
      ensures !queued ==> View().listener == FoundIdle(request) && pending == old(pending)
    {
      queued := IsTurnActive();
      if queued {
        pending := Some(request);
      }
      Note(AcceptUnderLock(request));
      ActiveExactlyWhileInFlight(trace);
    }

    /** `_dispatch_prompt` called by the listener: from here on the turn is active. */
    method DispatchPrompt()
      requires Valid() && Enabled(View(), Dispatch)
      modifies this
      ensures Valid() && trace == old(trace) + [Dispatch] && IsTurnActive()
    {
      responseActive := true;
      Note(Dispatch);
    }

    /** The `finally` section after the prompt handler: no handler is in progress any more, yet the
        turn has been active without a gap. */
    method FinishReply(thread: ThreadId, speech: Completion)
      requires Valid() && Enabled(View(), HandlerReturns(thread, speech))
      modifies this
      ensures Valid() && trace == old(trace) + [HandlerReturns(thread, speech)]
      ensures IsTurnActive() && forall t :: !At(View(), t, Handling)
    {
      readying := true;
      completion := speech;
      responseActive := false;
      HandlerIsOver(trace, thread, speech);
      Note(HandlerReturns(thread, speech));
    }

    /** The speech is over or the service stopped; the turn stays active until the last section. */
    method ClearCompletion(thread: ThreadId)
      requires Valid() && Enabled(View(), Settle(thread))
      modifies this
      ensures Valid() && trace == old(trace) + [Settle(thread)] && IsTurnActive() && completion == NoSpeech
    {
      completion := NoSpeech;
      Note(Settle(thread));
      InFlightIsActive(thread);
    }

    /** The last section up to the start of the next thread; without one, all of it. The turn is over
        exactly if nothing was handed over. */
    method HandOver(thread: ThreadId) returns (next: Option<Request>)
      requires Valid() && Enabled(View(), TakePending(thread))
      modifies this
      ensures Valid() && trace == old(trace) + [TakePending(thread)]
      ensures next == if stopped then None else old(pending)
      ensures pending == None && (IsTurnActive() <==> next.Some?)
    {
      next := None;
      if pending.Some? && !stopped {
        next := pending;
        responseActive := true;
      } else {
        readying := false;
      }
      SettledFlags(trace, thread);
      pending := None;
      Note(TakePending(thread));
    }

    /** The end of the last section after a next thread was started: its turn goes on. */
    method Release(thread: ThreadId)
      requires Valid() && Enabled(View(), ReleaseHandover(thread))
      modifies this
      ensures Valid() && trace == old(trace) + [ReleaseHandover(thread)] && IsTurnActive()
    {
      HandoverFlags(trace);
      readying := false;
      Note(ReleaseHandover(thread));
    }

    lemma InFlightIsActive(thread: ThreadId)
      requires Valid() && InFlight(View(), thread)
      ensures IsTurnActive()
    {
      ActiveExactlyWhileInFlight(trace);
    }
  }

  lemma HandlerIsOver(events: seq<Event>, t: ThreadId, speech: Completion)
    requires After(events).Some? && Enabled(After(events).value, HandlerReturns(t, speech))
    ensures forall u :: !At(Apply(After(events).value, HandlerReturns(t, speech)), u, Handling)
  {
    var s := After(events).value;
    forall u ensures !At(Apply(s, HandlerReturns(t, speech)), u, Handling) {
      if At(s, u, Handling) {
        OneHandlerAtATime(events, t, u);
      }
    }
  }

  /** At the last section of a turn only the clean-up flag stands. */
  lemma SettledFlags(events: seq<Event>, t: ThreadId)
    requires After(events).Some? && Enabled(After(events).value, TakePending(t))
    ensures var s := After(events).value; !s.responseActive && s.completion == NoSpeech
  {
    hide InOrder, OneFateEach, ListenerInStep, OneTurn, FlagsTrackTheTurn, After;
    RunKeepsInvariant(events);
    SettledIsNewest(After(events).value, t);
  }

  lemma SettledIsNewest(s: Turns, t: ThreadId)
    requires OneTurn(s) && FlagsTrackTheTurn(s) && At(s, t, Settled) && !s.locked
    ensures !s.responseActive && s.completion == NoSpeech
  {
    assert t == |s.threads| - 1;
    assert Newest(s).stage == Settled;
  }

  /** During a handover the next turn's own flag stands. */
  lemma HandoverFlags(events: seq<Event>)
    requires After(events).Some? && After(events).value.locked
    ensures After(events).value.responseActive
  {
    hide InOrder, OneFateEach, ListenerInStep, After;
    RunKeepsInvariant(events);
  }

  /** Every run of the machine is one of the object: started fresh and taken through the events, its
      own sections doing those under the lock, it ends where the machine ends. */
  method RunService(events: seq<Event>) returns (service: VoiceService)
    requires After(events).Some?
    ensures service.Valid() && service.trace == events && Some(service.View()) == After(events)
  {
    service := new VoiceService();
    for n := 0 to |events|
      invariant fresh(service) && service.Valid() && service.trace == events[..n]
    {
      PrefixRuns(events, n);
      StepService(service, events[n]);
      assert events[..n + 1] == events[..n] + [events[n]];
    }
    assert events[..|events|] == events;
  }

  method StepService(service: VoiceService, e: Event)
    requires service.Valid() && Enabled(service.View(), e)
    modifies service
    ensures service.Valid() && service.trace == old(service.trace) + [e]
  {
    hide After, Apply;
    match e {
      case AcceptUnderLock(request) => var _ := service.QueueIfActive(request);
      case Dispatch => service.DispatchPrompt();
      case HandlerReturns(t, completion) => service.FinishReply(t, completion);
      case Settle(t) => service.ClearCompletion(t);
      case TakePending(t) => var _ := service.HandOver(t);
      case ReleaseHandover(t) => service.Release(t);
      case _ => service.Elsewhere(e);
    }
  }
}
