/** The wake and follow-up window machine: `_listen` and the outcomes of
    `_process_segment` in ron/voice/service.py.

    The wake detector, the endpoint detector, the recogniser, the normaliser, the clock
    and the state of the current turn are given from outside, one value for each look at them.
    `events` records what the listener did, in order.
 */
module WakeListener {
  import opened Common

  datatype Event =
    | WakeDetected
    | FollowupOpened                               // a reply earned a wake-free window
    | ChatHeard                                    // a segment was let in by continuous chat alone
    | Accepted(afterWake: bool, queued: bool)      // a command was dispatched, or queued behind a turn

  datatype Outcome =
    | Unclear | Rejected | Waiting | Clarification | Continuous
    | Handled | Dispatched | QueuedNext

  /** What recogniser and normaliser made of a segment, in the order the service looks at it. */
  datatype Recognition =
    | TranscriptionFailed | NotAccepted | Uncertain | WakeOnly | NeedsClarification
    | Command(interruptPhrase: bool)

  /** An endpointed segment with what the listener finds at each look while it deals with it. */
  datatype Segment = Segment(
    at: real,                    // when it is taken up
    continuous: bool,            // continuous chat is on
    speaking: bool,              // a turn is active, first look
    stillSpeaking: bool,         // second look
    short: bool,                 // it is as short as the wake phrase alone
    speakingAtHandoff: bool,     // third look
    heard: Recognition,
    turnActive: bool,            // look after recognition
    turnStillActive: bool,       // look under the lock
    doneAt: real,
    reply: Followup)

  /** What a response thread asks for meanwhile: a window until some time, or none. */
  datatype Followup = Followup(allowed: bool, until: real)

  /** One round of the loop. */
  datatype Round = Round(
    before: Followup, at: real, continuous: bool, samplesArrived: bool, ignored: bool, detected: bool,
    segments: seq<Segment>)

  predicate IsAcceptance(o: Outcome) { o.Dispatched? || o.QueuedNext? }

  // ---- what the record of a run has to satisfy

  /** A wake, an opened follow-up window or a moment of continuous chat lies before
      position i, with no acceptance after it. */
  ghost predicate Licensed(es: seq<Event>, i: nat)
    requires i <= |es|
  {
    exists k :: 0 <= k < i && !es[k].Accepted? && forall j | k <= j < i :: !es[j].Accepted?
  }

  /** Every acceptance spends a licence of its own. */
  ghost predicate Earned(es: seq<Event>) {
    forall i | 0 <= i < |es| && es[i].Accepted? :: Licensed(es, i)
  }

  lemma LicensedPrefix(es: seq<Event>, e: Event, i: nat)
    requires i <= |es|
    ensures Licensed(es + [e], i) <==> Licensed(es, i)
  {
    if Licensed(es, i) {
      var k :| 0 <= k < i && !es[k].Accepted? && forall j | k <= j < i :: !es[j].Accepted?;
      assert (es + [e])[k] == es[k];
    }
    if Licensed(es + [e], i) {
      var k :| 0 <= k < i && !(es + [e])[k].Accepted? && forall j | k <= j < i :: !(es + [e])[j].Accepted?;
      assert forall j | k <= j < i :: (es + [e])[j] == es[j];
    }
  }

  /** Appending an event: an acceptance needs a licence; anything else grants one. */
  lemma Append(es: seq<Event>, e: Event)
    requires Earned(es)
    requires e.Accepted? ==> Licensed(es, |es|)
    ensures Earned(es + [e])
    ensures !e.Accepted? ==> Licensed(es + [e], |es| + 1)
  {
    forall i | 0 <= i < |es + [e]| && (es + [e])[i].Accepted?
      ensures Licensed(es + [e], i)
    {
      LicensedPrefix(es, e, i);
    }
    if !e.Accepted? {
      assert (es + [e])[|es|] == e;
    }
  }

  function Wakes(es: seq<Event>): nat {
    if es == [] then 0 else Wakes(es[..|es| - 1]) + if es[|es| - 1].WakeDetected? then 1 else 0
  }

  function Acceptances(es: seq<Event>): nat {
    if es == [] then 0 else Acceptances(es[..|es| - 1]) + if es[|es| - 1].Accepted? then 1 else 0
  }

  /** Strict mode without continuous chat: only wakes license commands. */
  predicate Strict(es: seq<Event>) {
    forall i | 0 <= i < |es| :: es[i].WakeDetected? || es[i].Accepted?
  }

  /** Strictly between two accepted commands there is a wake, and one before the first. */
  lemma WakeBetweenCommands(es: seq<Event>, second: nat) returns (wake: nat)
    requires Earned(es) && Strict(es)
    requires second < |es| && es[second].Accepted?
    ensures wake < second && es[wake].WakeDetected?
    ensures forall first | 0 <= first < second && es[first].Accepted? :: first < wake
  {
    assert Licensed(es, second);
    wake :| 0 <= wake < second && !es[wake].Accepted? && forall j | wake <= j < second :: !es[j].Accepted?;
  }

  /** Accepted commands never outnumber wakes, and an unspent licence is one wake in hand. */
  lemma {:induction false} NeverMoreCommandsThanWakes(es: seq<Event>)
    requires Earned(es) && Strict(es)
    ensures Acceptances(es) + (if Licensed(es, |es|) then 1 else 0) <= Wakes(es)
  {
    if es == [] {
    } else {
      var before, last := es[..|es| - 1], es[|es| - 1];
      assert es == before + [last];
      forall i | 0 <= i < |before| && before[i].Accepted? ensures Licensed(before, i) {
        assert es[i] == before[i] && Licensed(es, i);
        LicensedPrefix(before, last, i);
      }
      NeverMoreCommandsThanWakes(before);
      if last.Accepted? {
        assert Licensed(es, |before|);
        LicensedPrefix(before, last, |before|);
        assert !Licensed(es, |es|);
      }
    }
  }

  // ---- the machine

  class VoiceListener {
    // settings
    const followupEnabled: bool
    const acceptNewTurnDuringReply: bool
    const bargeInEnabled: bool
    const continuousChat: bool      // whether continuous chat can ever be active
    const fastHandoff: bool
    const wakeFollowupSeconds: real
    const commandStartSeconds: real
    const automaticFollowupSeconds: real
    const continuousSeconds: real
    const cooldownSeconds: real

    // locals of `_listen`
    var wakePending: bool
    var awaitingUntil: real
    var continuousUntil: real
    var cooldownUntil: real
    var previousContinuous: bool
    var now: real

    // fields shared with the response threads
    var followupUntil: real
    var lastReplyAllowsFollowup: bool

    ghost var events: seq<Event>

    constructor (followup: bool, acceptNew: bool, bargeIn: bool, continuous: bool, fast: bool,
                 wakeFollowup: real, commandStart: real, automatic: real, continuousFor: real, cooldown: real)
      requires wakeFollowup >= 0.0 && commandStart >= 0.0 && automatic >= 0.0
      ensures Valid() && events == []
      ensures followupEnabled == followup && continuousChat == continuous
    {
      followupEnabled, acceptNewTurnDuringReply, bargeInEnabled := followup, acceptNew, bargeIn;
      continuousChat, fastHandoff := continuous, fast;
      wakeFollowupSeconds, commandStartSeconds, automaticFollowupSeconds := wakeFollowup, commandStart, automatic;
      continuousSeconds, cooldownSeconds := continuousFor, cooldown;
      wakePending, awaitingUntil, continuousUntil, cooldownUntil := false, 0.0, 0.0, 0.0;
      previousContinuous, now, followupUntil, lastReplyAllowsFollowup := false, 0.0, 0.0, false;
      events := [];
    }

    /** The record is well earned, and shows only what the mode allows. */
    ghost predicate Lawful()
      reads this
    {
      && Earned(events)
      && now >= 0.0 && awaitingUntil >= 0.0
      && wakeFollowupSeconds >= 0.0 && commandStartSeconds >= 0.0 && automaticFollowupSeconds >= 0.0
      && (forall i | 0 <= i < |events| ::
            && (events[i].FollowupOpened? ==> followupEnabled)
            && (events[i].ChatHeard? ==> continuousChat)
            && (events[i].Accepted? && events[i].queued ==> events[i].afterWake && acceptNewTurnDuringReply))
      && (!followupEnabled ==> followupUntil == 0.0)
    }

    ghost predicate HasLicence()
      reads this
    {
      Licensed(events, |events|)
    }

    /** Between rounds an open window is backed by a licence no command has spent. */
    ghost predicate Valid()
      reads this
    {
      Lawful() && (wakePending || awaitingUntil != 0.0 ==> HasLicence())
    }

    ghost method Record(e: Event)
      requires Lawful()
      requires match e
               case WakeDetected => true
               case FollowupOpened => followupEnabled
               case ChatHeard => continuousChat
               case Accepted(afterWake, queued) =>
                 HasLicence() && (queued ==> afterWake && acceptNewTurnDuringReply)
      modifies this`events
      ensures Lawful() && events == old(events) + [e]
      ensures !e.Accepted? ==> HasLicence()
    {
      Append(events, e);
      events := events + [e];
    }

    /** The clock never goes back. */
    method Tick(at: real)
      modifies this`now
      ensures now == if at > old(now) then at else old(now)
    {
      if at > now {
        now := at;
      }
    }

    /** A response thread may have finished a turn: in follow-up mode it can ask for a window. */
    method ResponseThreadSets(f: Followup)
      requires Lawful()
      modifies this`followupUntil, this`lastReplyAllowsFollowup
      ensures Lawful() && lastReplyAllowsFollowup == f.allowed
      ensures followupUntil == if followupEnabled && f.allowed then f.until else old(followupUntil)
    {
      lastReplyAllowsFollowup := f.allowed;
      if followupEnabled && f.allowed {
        followupUntil := f.until;
      }
    }

    /** `while not self._stop.is_set()`, stopped after any number of rounds. */
    method Listen(rounds: seq<Round>)
      requires Valid()
      modifies this
      ensures Valid() && old(events) <= events
    {
      for n := 0 to |rounds|
        invariant Valid() && old(events) <= events
      {
        ResponseThreadSets(rounds[n].before);
        var _ := ListenOnce(rounds[n]);
      }
    }

    /** One round. With samples to listen to, a wake that is detected outside the cooldown is recorded, and
        every segment is looked at. */
    method ListenOnce(round: Round) returns (outcomes: seq<Option<Outcome>>)
      requires Valid()
      modifies this
      ensures Valid() && old(events) <= events
      ensures |outcomes| == if round.samplesArrived && !round.ignored then |round.segments| else 0
      ensures
        (round.samplesArrived && !round.ignored && round.detected && At(old(now), round.at) >= old(cooldownUntil)) ==>
        WakeDetected in events[|old(events)|..]
    {
      UpdateWindows(round.at, round.continuous);
      outcomes := [];
      if round.samplesArrived && !round.ignored {
        ghost var k := |events|;
        outcomes := FeedDetectors(round.detected, round.segments);
        if round.detected && At(old(now), round.at) >= old(cooldownUntil) {
          assert events[|old(events)|..][k - |old(events)|] == WakeDetected;
        }
      }
    }

    /** A follow-up window asked for is opened, and a window whose time is up is closed. */
    method UpdateWindows(at: real, continuous: bool)
      requires Valid()
      modifies this`now, this`awaitingUntil, this`wakePending, this`followupUntil, this`continuousUntil,
        this`previousContinuous, this`events
      ensures Valid() && now == if at > old(now) then at else old(now)
      ensures events == old(events) + if old(followupUntil > awaitingUntil) then [FollowupOpened] else []
      ensures var wanted := if old(followupUntil > awaitingUntil) then old(followupUntil) else old(awaitingUntil);
        var over := wanted != 0.0 && now >= wanted;
        awaitingUntil == (if over then 0.0 else wanted) && (wakePending <==> old(wakePending) && !over)
    {
      Tick(at);
      if followupUntil > awaitingUntil {
        awaitingUntil, followupUntil := followupUntil, 0.0;
        Record(FollowupOpened);
      }
      UpdateContinuous(continuous);
      if awaitingUntil != 0.0 && now >= awaitingUntil {
        awaitingUntil, wakePending := 0.0, false;
      }
    }

    method FeedDetectors(detected: bool, segments: seq<Segment>) returns (outcomes: seq<Option<Outcome>>)
      requires Valid()
      modifies this
      ensures Valid() && old(events) <= events && |outcomes| == |segments|
      ensures detected && old(now >= cooldownUntil) ==> old(events) + [WakeDetected] <= events
      ensures detected && old(now >= cooldownUntil) && segments != [] ==>
        var made := if Fast(segments[0], true) then Waiting else OutcomeOf(segments[0], true);
        && outcomes[0] == Some(made)
        && old(events) + [WakeDetected] + RecordOf(made, true, segments[0].reply.allowed) <= events
    {
      hide Earned, Licensed, OutcomeOf, TakenUp, RecordOf;
      if detected && now >= cooldownUntil {
        wakePending, awaitingUntil := true, 0.0;
        Record(WakeDetected);
      }
      ghost var woken, begun := wakePending, events;
      ghost var first := begun;
      outcomes := [];
      for n := 0 to |segments|
        invariant Valid() && begun <= first <= events && |outcomes| == n
        invariant n == 0 ==> events == begun && wakePending == woken
        invariant n > 0 && woken ==>
          var made := if Fast(segments[0], true) then Waiting else OutcomeOf(segments[0], true);
          outcomes[0] == Some(made) && first == begun + RecordOf(made, true, segments[0].reply.allowed)
      {
        TakenUpAfterWake(segments[n]);
        var outcome := HearSegment(segments[n]);
        outcomes := outcomes + [outcome];
        if n == 0 {
          first := events;
        }
      }
    }

    lemma TakenUpAfterWake(s: Segment)
      ensures wakePending ==> TakenUp(s)
    {
    }

    /** The clock of continuous chat: it starts with the mode, and the chat is over when it runs out. */
    method UpdateContinuous(wanted: bool)
      modifies this`continuousUntil, this`previousContinuous
      ensures var continuous := wanted && continuousChat;
        var clock := if continuous && !old(previousContinuous) then now + continuousSeconds
                     else if continuous then old(continuousUntil) else 0.0;
        var over := continuous && clock != 0.0 && now >= clock;
        continuousUntil == (if over then 0.0 else clock) && (previousContinuous <==> continuous && !over)
    {
      var continuous := wanted && continuousChat;
      if continuous && !previousContinuous {
        continuousUntil := now + continuousSeconds;
      }
      if !continuous {
        continuousUntil := 0.0;
      }
      previousContinuous := continuous;
      if continuous && continuousUntil != 0.0 && now >= continuousUntil {
        continuousUntil, previousContinuous := 0.0, false;
      }
    }

    /** One endpointed segment: gate it, recognise it, then move the windows. It is taken up exactly if a
        wake is pending, or no turn is active and a window is open or continuous chat is on. */
    method HearSegment(s: Segment) returns (outcome: Option<Outcome>)
      requires Valid()
      modifies this
      ensures Valid() && old(events) <= events
      ensures outcome.Some? <==> old(TakenUp(s))
      ensures outcome.None? ==> events == old(events) && !wakePending && awaitingUntil == old(awaitingUntil)
      ensures outcome.Some? ==> !wakePending
      ensures outcome.Some? ==>
        outcome.value == if Fast(s, old(wakePending)) then Waiting else OutcomeOf(s, old(wakePending))
      ensures outcome.Some? ==>
        events == old(events) + (if old(wakePending || awaitingUntil > At(now, s.at)) then [] else [ChatHeard])
          + RecordOf(outcome.value, old(wakePending), s.reply.allowed)
      ensures outcome.Some? ==>
        && now == At(At(old(now), s.at), s.doneAt)
        && awaitingUntil == WindowAfter(outcome.value, s.reply.allowed, now)
    {
      hide Earned, Licensed, OutcomeOf, TakenUp, RecordOf, Fast;
      var taken := PassesGate(s);
      if !taken {
        return None;
      }
      LicenceAtTheGate(s);
      if !wakePending && awaitingUntil <= now {
        Record(ChatHeard);
      }
      var requireWake := wakePending;
      wakePending := false;
      var made := DealWith(s, requireWake);
      return Some(made);
    }

    /** The conditions under which `_listen` leaves a segment alone. */
    method PassesGate(s: Segment) returns (taken: bool)
      modifies this`now
      ensures now == At(old(now), s.at) && (taken <==> old(TakenUp(s)))
      ensures !taken ==> !wakePending
      ensures taken && !wakePending && awaitingUntil <= now ==> continuousChat
    {
      Tick(s.at);
      var continuousActive := s.continuous && continuousChat && (continuousUntil == 0.0 || now < continuousUntil);
      if s.speaking {
        continuousActive := false;
      }
      var awaiting := awaitingUntil > now;
      if s.stillSpeaking && !wakePending {
        return false;
      }
      return wakePending || awaiting || continuousActive;
    }

    lemma LicenceAtTheGate(s: Segment)
      requires Valid()
      ensures wakePending || awaitingUntil > now ==> HasLicence()
    {
      hide Earned, Licensed;
    }

    /** A segment that was taken up: recognised, or taken for the wake phrase. */
    method DealWith(s: Segment, requireWake: bool) returns (made: Outcome)
      requires Lawful() && HasLicence() && !wakePending
      modifies this
      ensures Valid() && !wakePending
      ensures made == if Fast(s, requireWake) then Waiting else OutcomeOf(s, requireWake)
      ensures events == old(events) + RecordOf(made, requireWake, s.reply.allowed)
      ensures now == At(old(now), s.doneAt) && awaitingUntil == WindowAfter(made, s.reply.allowed, now)
    {
      hide Earned, Licensed, OutcomeOf;
      made := Waiting;
      if !(requireWake && !s.speakingAtHandoff && fastHandoff && s.short) {
        made := ProcessSegment(s, requireWake);
      }
      Tick(s.doneAt);
      ResponseThreadSets(s.reply);
      MoveWindows(made);
    }

    /** What the clock shows next. */
    function At(now: real, later: real): real {
      if later > now then later else now
    }

    predicate TakenUp(s: Segment)
      reads this
    {
      wakePending || (!s.stillSpeaking && (awaitingUntil > At(now, s.at) || ChatOn(s)))
    }

    predicate ChatOn(s: Segment)
      reads this
    {
      s.continuous && continuousChat && !s.speaking && (continuousUntil == 0.0 || At(now, s.at) < continuousUntil)
    }

    /** A short segment right after a wake is taken for the wake phrase alone. */
    predicate Fast(s: Segment, afterWake: bool) {
      afterWake && !s.speakingAtHandoff && fastHandoff && s.short
    }

    /** Until when the next segment may come without a wake; 0 for not at all. */
    function WindowAfter(outcome: Outcome, allowed: bool, now: real): real {
      match outcome
      case Waiting => now + wakeFollowupSeconds
      case Clarification => now + commandStartSeconds
      case Unclear => now + commandStartSeconds
      case Handled => if followupEnabled && allowed then now + automaticFollowupSeconds else 0.0
      case _ => 0.0
    }

    /** What an outcome leaves in the record. */
    function RecordOf(outcome: Outcome, afterWake: bool, allowed: bool): seq<Event> {
      match outcome
      case Dispatched => [Accepted(afterWake, false)]
      case QueuedNext => [Accepted(afterWake, true)]
      case Handled => if followupEnabled && allowed then [FollowupOpened] else []
      case _ => []
    }

    /** What becomes of a segment that is recognised: a command is accepted unless a turn is active and
        it neither follows a wake nor may take the turn's place; then it is queued if the turn is still
        active under the lock, and dispatched otherwise. */
    function OutcomeOf(s: Segment, requireWake: bool): Outcome {
      match s.heard
      case TranscriptionFailed => Unclear
      case NotAccepted => Rejected
      case Uncertain => Unclear
      case WakeOnly => if s.turnActive then Handled else Waiting
      case NeedsClarification => Clarification
      case Command(interruptPhrase) =>
        if !s.turnActive then Dispatched
        else if bargeInEnabled && requireWake && interruptPhrase then Handled
        else if !(acceptNewTurnDuringReply && requireWake) then Handled
        else if s.turnStillActive then QueuedNext else Dispatched
    }

    /** `_process_segment`: a command is accepted only at its last branches. */
    method ProcessSegment(s: Segment, requireWake: bool) returns (outcome: Outcome)
      requires Lawful() && HasLicence()
      modifies this`events, this`lastReplyAllowsFollowup
      ensures Lawful() && outcome == OutcomeOf(s, requireWake)
      ensures events == old(events) +
        if IsAcceptance(outcome) then [Accepted(requireWake, outcome.QueuedNext?)] else []
      ensures !IsAcceptance(outcome) ==> HasLicence()
      ensures IsAcceptance(outcome) <==>
        s.heard.Command? && (!s.turnActive ||
          (acceptNewTurnDuringReply && requireWake && !(bargeInEnabled && s.heard.interruptPhrase)))
      ensures outcome.QueuedNext? <==> IsAcceptance(outcome) && s.turnActive && s.turnStillActive
      ensures s.heard == NotAccepted <==> outcome == Rejected
      ensures s.heard == TranscriptionFailed || s.heard == Uncertain <==> outcome == Unclear
      ensures s.heard == NeedsClarification <==> outcome == Clarification
      ensures outcome == Waiting <==> s.heard == WakeOnly && !s.turnActive
      ensures outcome != Continuous && !lastReplyAllowsFollowup
    {
      lastReplyAllowsFollowup := false;
      match s.heard {
        case TranscriptionFailed => return Unclear;
        case NotAccepted => return Rejected;
        case Uncertain => return Unclear;
        case WakeOnly => return if s.turnActive then Handled else Waiting;
        case NeedsClarification => return Clarification;
        case Command(interruptPhrase) =>
          var turnActive := s.turnActive;
          if turnActive {
            if bargeInEnabled && requireWake && interruptPhrase {
              return Handled;
            }
            if !(acceptNewTurnDuringReply && requireWake) {
              return Handled;
            }
            turnActive := s.turnStillActive;
          }
          Record(Accepted(requireWake, turnActive));
          return if turnActive then QueuedNext else Dispatched;
      }
    }

    /** What each outcome does to the windows. */
    method MoveWindows(outcome: Outcome)
      requires Lawful() && !wakePending
      requires !IsAcceptance(outcome) ==> HasLicence()
      modifies this`awaitingUntil, this`cooldownUntil, this`continuousUntil, this`events
      ensures Valid()
      ensures awaitingUntil ==
        match outcome
        case Waiting => now + wakeFollowupSeconds
        case Clarification => now + commandStartSeconds
        case Unclear => now + commandStartSeconds
        case Handled => if followupEnabled && lastReplyAllowsFollowup then now + automaticFollowupSeconds else 0.0
        case _ => 0.0
      ensures cooldownUntil ==
        match outcome
        case Rejected => now + cooldownSeconds
        case Dispatched => 0.0
        case QueuedNext => 0.0
        case Handled => if followupEnabled && lastReplyAllowsFollowup then 0.0 else now + cooldownSeconds
        case _ => old(cooldownUntil)
      ensures continuousUntil == if outcome.Continuous? then now + continuousSeconds else old(continuousUntil)
      ensures events == old(events) +
        if outcome.Handled? && followupEnabled && lastReplyAllowsFollowup then [FollowupOpened] else []
    {
      match outcome {
        case Rejected =>
          cooldownUntil, awaitingUntil := now + cooldownSeconds, 0.0;
        case Waiting =>
          awaitingUntil := now + wakeFollowupSeconds;
        case Clarification =>
          awaitingUntil := now + commandStartSeconds;
        case Unclear =>
          awaitingUntil := now + commandStartSeconds;
        case Continuous =>
          continuousUntil, awaitingUntil := now + continuousSeconds, 0.0;
        case Dispatched =>
          cooldownUntil, awaitingUntil := 0.0, 0.0;
        case QueuedNext =>
          cooldownUntil, awaitingUntil := 0.0, 0.0;
        case Handled =>
          if followupEnabled && lastReplyAllowsFollowup {
            awaitingUntil, cooldownUntil := now + automaticFollowupSeconds, 0.0;
            Record(FollowupOpened);
          } else {
            cooldownUntil, awaitingUntil := now + cooldownSeconds, 0.0;
          }
      }
    }
  }

  /** Strict mode, from start-up and for any number of rounds: a wake lies strictly between
      any two accepted commands, and commands never outnumber wakes. */
  method StrictModeConservesWakes(listener: VoiceListener, rounds: seq<Round>)
    requires listener.Valid() && listener.events == []
    requires !listener.followupEnabled && !listener.continuousChat
    modifies listener
    ensures Earned(listener.events) && Strict(listener.events)
    ensures Acceptances(listener.events) <= Wakes(listener.events)
    ensures
      forall a, b |
        0 <= a < b < |listener.events| && listener.events[a].Accepted? && listener.events[b].Accepted? ::
          exists w :: a < w < b && listener.events[w].WakeDetected?
  {
    listener.Listen(rounds);
    NeverMoreCommandsThanWakes(listener.events);
    forall a, b | 0 <= a < b < |listener.events| && listener.events[a].Accepted? && listener.events[b].Accepted?
      ensures exists w :: a < w < b && listener.events[w].WakeDetected?
    {
      var w := WakeBetweenCommands(listener.events, b);
    }
  }

  /** A wake phrase and then a command, with no turn active: the command is accepted, whatever the mode. */
  method WakeThenCommand(listener: VoiceListener, round: Round)
    requires listener.Valid() && listener.At(listener.now, round.at) >= listener.cooldownUntil
    requires round.samplesArrived && !round.ignored && round.detected && round.segments != []
    requires var s := round.segments[0]; s.heard.Command? && !s.turnActive && !s.short
    modifies listener
    ensures listener.Valid() && old(listener.events) <= listener.events
    ensures exists k ::
      && |old(listener.events)| <= k < |listener.events| - 1
      && listener.events[k] == WakeDetected && listener.events[k + 1] == Accepted(true, false)
  {
    hide Earned, Licensed;
    listener.UpdateWindows(round.at, round.continuous);
    ghost var k := |listener.events|;
    var outcomes := listener.FeedDetectors(round.detected, round.segments);
    assert listener.events[k] == WakeDetected && listener.events[k + 1] == Accepted(true, false);
  }
}
