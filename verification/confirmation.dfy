/** Confirmation of gated plans: `respond`, `_handle_pending`, `_execute_plans`,
    `_expire_pending` and `_repeat_plans` in ron/agent/service.py, with the gates of
    `ToolRegistry.preflight` in ron/agent/registry.py.

    Whether a tool exists, accepts the arguments and is available, whether the task queue
    has room, what the planner proposes and how time passes come with each prompt.
 */
module Confirmation {
  import opened Common

  datatype Plan = Plan(tool: string, action: string, level: Option<int>, other: string)

  datatype Pending = Pending(plans: seq<Plan>, expiresAt: real)
  datatype Clarification = Clarification(query: string, expiresAt: real)

  datatype Status = Ready | NeedsConfirmation | Unsupported | Invalid

  /** How a prompt reads to the service; `planned` is what the planner would make of it. */
  datatype Reading = Yes | No | Choice(choice: int) | Repeat(override: Option<int>) | Control | Other
  datatype Prompt = Prompt(reading: Reading, planned: seq<Plan>, world: World)

  /** What the service finds while it deals with a prompt: the tools that are registered and available, the
      arguments they take, whether queue and registry take a ready plan, and the time. */
  datatype World = World(
    registered: string -> bool, takesArguments: Plan -> bool, available: string -> bool,
    taken: bool, succeeds: bool, at: real, later: real)

  /** A plan that nothing but a missing confirmation can hold up. */
  predicate Sound(plan: Plan, w: World) {
    w.registered(plan.tool) && w.takesArguments(plan) && w.available(plan.tool)
  }

  /** What happened, in order. A plan tuple is accepted when it is handed to the task queue
      or to the registry for immediate execution. */
  datatype Event =
    | Presented(plans: seq<Plan>, at: real)
    | Confirmed(at: real)
    | Declined
    | Accepted(accepted: seq<Plan>, confirmed: bool)

  const WINDOW: real := 90.0

  predicate Gated(plans: seq<Plan>, gate: set<string>) {
    exists k :: 0 <= k < |plans| && plans[k].tool in gate
  }

  /** The presentation at i was still the open question just before position j. */
  predicate StandsUntil(log: seq<Event>, i: nat, j: nat)
    requires i < j <= |log|
  {
    log[i].Presented? && forall m | i < m < j :: log[m].Accepted? && !log[m].confirmed
  }

  /** The acceptance at j is of exactly the plans presented at i, and directly follows a
      confirmation given less than the window after it, with that presentation still standing. */
  predicate Authorises(log: seq<Event>, i: nat, j: nat)
    requires i < j < |log|
  {
    && i < j - 1
    && StandsUntil(log, i, j - 1)
    && log[j - 1].Confirmed?
    && log[j] == Accepted(log[i].plans, true)
    && log[i].at <= log[j - 1].at < log[i].at + WINDOW
  }

  ghost predicate Lawful(log: seq<Event>, gate: set<string>) {
    forall j | 0 <= j < |log| && log[j].Accepted? && (log[j].confirmed || Gated(log[j].accepted, gate)) ::
      exists i :: 0 <= i < j && Authorises(log, i, j)
  }

  lemma LawfulAppend(log: seq<Event>, e: Event, gate: set<string>)
    requires Lawful(log, gate)
    requires e.Accepted? && (e.confirmed || Gated(e.accepted, gate)) ==>
      exists i :: 0 <= i < |log| && Authorises(log + [e], i, |log|)
    ensures Lawful(log + [e], gate)
  {
    var log' := log + [e];
    forall j | 0 <= j < |log'| && log'[j].Accepted? && (log'[j].confirmed || Gated(log'[j].accepted, gate))
      ensures exists i :: 0 <= i < j && Authorises(log', i, j)
    {
      if j < |log| {
        var i :| 0 <= i < j && Authorises(log, i, j);
        assert Authorises(log', i, j);
      }
    }
  }

  /** One presentation authorises at most one acceptance: a later gated acceptance rests on a
      presentation made after the earlier one was confirmed. */
  lemma EachPresentationOnce(log: seq<Event>, i1: nat, j1: nat, i2: nat, j2: nat)
    requires j1 < j2 < |log|
    requires i1 < j1 && Authorises(log, i1, j1)
    requires i2 < j2 && Authorises(log, i2, j2)
    ensures i1 < j1 < i2
  {
  }

  function Presentations(log: seq<Event>): nat {
    if log == [] then 0 else Presentations(log[..|log| - 1]) + if log[|log| - 1].Presented? then 1 else 0
  }

  function GatedAcceptances(log: seq<Event>, gate: set<string>): nat {
    if log == [] then 0
    else
      var last := log[|log| - 1];
      GatedAcceptances(log[..|log| - 1], gate) + if last.Accepted? && Gated(last.accepted, gate) then 1 else 0
  }

  /** A presentation nobody has used yet. */
  ghost predicate Unused(log: seq<Event>, gate: set<string>) {
    exists i :: 0 <= i < |log| && log[i].Presented?
      && forall m | i < m < |log| && log[m].Accepted? :: !Gated(log[m].accepted, gate)
  }

  lemma LawfulPrefix(log: seq<Event>, gate: set<string>)
    requires Lawful(log, gate) && log != []
    ensures Lawful(log[..|log| - 1], gate)
  {
    var before := log[..|log| - 1];
    forall j | 0 <= j < |before| && before[j].Accepted? && (before[j].confirmed || Gated(before[j].accepted, gate))
      ensures exists i :: 0 <= i < j && Authorises(before, i, j)
    {
      var i :| 0 <= i < j && Authorises(log, i, j);
      assert Authorises(before, i, j);
    }
  }

  lemma GatedMeansConfirmed(log: seq<Event>, gate: set<string>)
    requires Lawful(log, gate)
    ensures forall j | 0 <= j < |log| && log[j].Accepted? && Gated(log[j].accepted, gate) :: log[j].confirmed
  {
  }

  /** A gated acceptance uses up the one presentation still unused. */
  lemma AcceptanceUsesUp(log: seq<Event>, gate: set<string>)
    requires Lawful(log, gate) && log != [] && log[|log| - 1].Accepted? && Gated(log[|log| - 1].accepted, gate)
    ensures Unused(log[..|log| - 1], gate) && !Unused(log, gate)
  {
    var before := log[..|log| - 1];
    var i :| 0 <= i < |before| && Authorises(log, i, |before|);
    GatedMeansConfirmed(log, gate);
    assert before[i].Presented?;
    assert forall m | i < m < |before| && before[m].Accepted? :: before[m] == log[m] && !log[m].confirmed;
  }

  lemma NothingUnused(gate: set<string>)
    ensures !Unused([], gate)
  {
  }

  lemma StillUnused(log: seq<Event>, gate: set<string>)
    requires log != [] && !log[|log| - 1].Presented? && Unused(log, gate)
    ensures Unused(log[..|log| - 1], gate)
  {
    hide Gated;
    var before := log[..|log| - 1];
    var i :| 0 <= i < |log| && log[i].Presented?
      && forall m | i < m < |log| && log[m].Accepted? :: !Gated(log[m].accepted, gate);
    assert before[i].Presented?;
  }

  /** Gated acceptances never outnumber presentations. */
  lemma {:induction false} NeverMoreThanPresented(log: seq<Event>, gate: set<string>)
    requires Lawful(log, gate)
    ensures GatedAcceptances(log, gate) + (if Unused(log, gate) then 1 else 0) <= Presentations(log)
  {
    hide Lawful, Unused, Gated;
    if log == [] {
      assert !Unused([], gate) by { NothingUnused(gate); }
    } else {
      var before, last := log[..|log| - 1], log[|log| - 1];
      LawfulPrefix(log, gate);
      NeverMoreThanPresented(before, gate);
      if last.Accepted? && Gated(last.accepted, gate) {
        AcceptanceUsesUp(log, gate);
      } else if !last.Presented? && Unused(log, gate) {
        StillUnused(log, gate);
      }
    }
  }

  class AgentService {
    const gate: set<string>          // tools registered with requires_confirmation
    var pendingConfirmation: Option<Pending>
    var pendingClarification: Option<Clarification>
    var lastSuccessfulPlans: seq<Plan>
    var now: real
    ghost var log: seq<Event>
    ghost var presentedAt: nat       // position of the standing presentation

    constructor (gate: set<string>)
      ensures Valid() && log == [] && this.gate == gate
    {
      this.gate := gate;
      pendingConfirmation, pendingClarification, lastSuccessfulPlans := None, None, [];
      now, log, presentedAt := 0.0, [], 0;
    }

    /** The pending question is the standing presentation, word for word. */
    ghost predicate Valid()
      reads this
    {
      && Lawful(log, gate)
      && (pendingConfirmation.Some? ==>
            && presentedAt < |log| && pendingConfirmation.value.plans != []
            && StandsUntil(log, presentedAt, |log|)
            && log[presentedAt] ==
              Presented(pendingConfirmation.value.plans, pendingConfirmation.value.expiresAt - WINDOW)
            && log[presentedAt].at <= now)
    }

    /** The clock never goes back. */
    method Tick(at: real)
      requires Valid()
      modifies this`now
      ensures Valid() && now == if at > old(now) then at else old(now)
    {
      if at > now {
        now := at;
      }
    }

    /** `_expire_pending`. */
    method ExpirePending()
      requires Valid()
      modifies this`pendingConfirmation, this`pendingClarification
      ensures Valid()
      ensures pendingConfirmation == if old(pendingConfirmation).Some? && old(pendingConfirmation).value.expiresAt > now
                                     then old(pendingConfirmation) else None
      ensures pendingClarification ==
        if old(pendingClarification).Some? && old(pendingClarification).value.expiresAt > now
        then old(pendingClarification) else None
    {
      if pendingConfirmation.Some? && pendingConfirmation.value.expiresAt <= now {
        pendingConfirmation := None;
      }
      if pendingClarification.Some? && pendingClarification.value.expiresAt <= now {
        pendingClarification := None;
      }
    }

    /** `ToolRegistry.preflight`: the confirmation gate comes before availability. */
    method Preflight(plan: Plan, confirmed: bool, w: World) returns (status: Status)
      ensures status == Ready <==> Sound(plan, w) && (confirmed || plan.tool !in gate)
      ensures status == NeedsConfirmation <==>
        w.registered(plan.tool) && w.takesArguments(plan) && !confirmed && plan.tool in gate
      ensures status == Invalid <==> w.registered(plan.tool) && !w.takesArguments(plan)
    {
      if !w.registered(plan.tool) {
        return Unsupported;
      }
      if !w.takesArguments(plan) {
        return Invalid;
      }
      if plan.tool in gate && !confirmed {
        return NeedsConfirmation;
      }
      return if w.available(plan.tool) then Ready else Unsupported;
    }

    /** The first of these plans that is not ready only wants a confirmation. */
    predicate Asks(plans: seq<Plan>, w: World) {
      exists k :: 0 <= k < |plans| && plans[k].tool in gate && w.registered(plans[k].tool) && w.takesArguments(plans[k])
        && forall j | 0 <= j < k :: Sound(plans[j], w) && plans[j].tool !in gate
    }

    /** `_execute_plans`: all plans pass preflight before any is accepted. */
    method ExecutePlans(plans: seq<Plan>, confirmed: bool, w: World) returns (wasAccepted: bool)
      requires Valid()
      requires plans != []
      requires confirmed ==>
        && pendingConfirmation.None? && |log| > 0 && log[|log| - 1].Confirmed?
        && presentedAt < |log| - 1 && StandsUntil(log, presentedAt, |log| - 1)
        && log[presentedAt].plans == plans
        && log[presentedAt].at <= log[|log| - 1].at < log[presentedAt].at + WINDOW
      modifies this`pendingConfirmation, this`lastSuccessfulPlans, this`log, this`presentedAt
      ensures Valid()
      ensures wasAccepted <==>
        w.taken && (confirmed || !Gated(plans, gate)) && forall k | 0 <= k < |plans| :: Sound(plans[k], w)
      ensures log == old(log) +
        if wasAccepted then [Accepted(plans, confirmed)]
        else if !confirmed && Asks(plans, w) then [Presented(plans, now)] else []
      ensures pendingConfirmation ==
        if !confirmed && Asks(plans, w) then Some(Pending(plans, now + 90.0)) else old(pendingConfirmation)
      ensures lastSuccessfulPlans == if wasAccepted && w.succeeds then plans else old(lastSuccessfulPlans)
    {
      wasAccepted := false;
      for index := 0 to |plans|
        invariant log == old(log) && pendingConfirmation == old(pendingConfirmation)
        invariant presentedAt == old(presentedAt) && now == old(now)
        invariant lastSuccessfulPlans == old(lastSuccessfulPlans)
        invariant forall k | 0 <= k < index :: Sound(plans[k], w) && (confirmed || plans[k].tool !in gate)
      {
        var status := Preflight(plans[index], confirmed, w);
        if status == NeedsConfirmation {
          LawfulAppend(log, Presented(plans, now), gate);
          pendingConfirmation := Some(Pending(plans, now + WINDOW));
          presentedAt, log := |log|, log + [Presented(plans, now)];
          return;
        }
        if status != Ready {
          return;
        }
      }
      if w.taken {
        wasAccepted := true;
        ghost var e := Accepted(plans, confirmed);
        assert confirmed ==> Authorises(log + [e], presentedAt, |log|);
        LawfulAppend(log, e, gate);
        log := log + [e];
        if w.succeeds {               // now, or later when the queued task completes
          lastSuccessfulPlans := plans;
        }
      }
    }

    /** `_handle_pending`: true when the prompt answered a pending question. */
    method HandlePending(reading: Reading, w: World) returns (answered: bool)
      requires Valid()
      requires pendingConfirmation.Some? ==> now < pendingConfirmation.value.expiresAt
      modifies this`pendingConfirmation, this`pendingClarification, this`lastSuccessfulPlans, this`log, this`presentedAt
      ensures Valid() && old(log) <= log
      ensures old(pendingConfirmation).Some? && reading == Yes ==>
        var plans := old(pendingConfirmation).value.plans;
        && answered && pendingConfirmation.None?
        && log == old(log) + [Confirmed(now)] +
             if w.taken && forall k | 0 <= k < |plans| :: Sound(plans[k], w) then [Accepted(plans, true)] else []
      ensures old(pendingConfirmation).Some? && reading == No ==>
        answered && pendingConfirmation.None? && log == old(log) + [Declined]
      ensures old(pendingConfirmation).None? && reading == Yes ==> log == old(log) && !answered
      ensures old(pendingClarification).Some? && reading == No && old(pendingConfirmation).None? ==>
        answered && pendingClarification.None? && log == old(log)
      ensures answered <==>
        (old(pendingConfirmation).Some? && reading in {Yes, No})
        || (old(pendingClarification).Some? && (reading == No || reading.Choice?))
      ensures !answered ==>
        log == old(log) && pendingConfirmation == old(pendingConfirmation)
        && lastSuccessfulPlans == old(lastSuccessfulPlans)
    {
      if pendingConfirmation.Some? && reading == No {
        pendingConfirmation := None;
        LawfulAppend(log, Declined, gate);
        log := log + [Declined];
        return true;
      }
      if pendingConfirmation.Some? && reading == Yes {
        var plans := pendingConfirmation.value.plans;
        pendingConfirmation := None;
        LawfulAppend(log, Confirmed(now), gate);
        log := log + [Confirmed(now)];
        var wasAccepted := ExecutePlans(plans, true, w);
        return true;
      }
      if pendingClarification.Some? && reading == No {
        pendingClarification := None;
        return true;
      }
      if pendingClarification.Some? && reading.Choice? {
        var plan := Plan("spotify_play_track", pendingClarification.value.query, Some(reading.choice), "");
        pendingClarification := None;
        var wasAccepted := ExecutePlans([plan], false, w);
        return true;
      }
      return false;
    }

    /** `_repeat_plans`: the last successful plans, with an exact volume when one is given. */
    method RepeatPlans(override: Option<int>) returns (plans: seq<Plan>)
      ensures override.None? ==> plans == lastSuccessfulPlans
      ensures override.Some? && plans != [] ==>
        && |plans| == |lastSuccessfulPlans|
        && forall k | 0 <= k < |plans| ::
             if SetsVolume(lastSuccessfulPlans[k]) then plans[k] == lastSuccessfulPlans[k].(level := override)
             else plans[k] == lastSuccessfulPlans[k]
      ensures override.Some? ==>
        (plans != [] <==> 0 <= override.value <= 100
                          && exists k :: 0 <= k < |lastSuccessfulPlans| && SetsVolume(lastSuccessfulPlans[k]))
    {
      if override.None? {
        return lastSuccessfulPlans;
      }
      if !(0 <= override.value <= 100) {
        return [];
      }
      plans := [];
      var changed := false;
      for index := 0 to |lastSuccessfulPlans|
        invariant |plans| == index
        invariant changed <==> exists k :: 0 <= k < index && SetsVolume(lastSuccessfulPlans[k])
        invariant forall k | 0 <= k < index ::
          plans[k] == lastSuccessfulPlans[k].(
            level := if SetsVolume(lastSuccessfulPlans[k]) then override else lastSuccessfulPlans[k].level)
      {
        var plan := lastSuccessfulPlans[index];
        if SetsVolume(plan) {
          plan, changed := plan.(level := override), true;
        }
        plans := plans + [plan];
      }
      if !changed {
        plans := [];
      }
    }

    static predicate SetsVolume(plan: Plan) {
      plan.tool == "control_volume" && plan.action == "set"
    }

    /** The question that still stands when the clock shows this. */
    function Standing(at: real): Option<Pending>
      reads this
    {
      if pendingConfirmation.Some? && pendingConfirmation.value.expiresAt > at then pendingConfirmation else None
    }

    /** `respond`. A confirmation in time accepts the plans asked about if they are still sound; a new
        request is accepted at once, or asked about, and nothing else of it is. */
    method Respond(prompt: Prompt)
      requires Valid()
      modifies this
      ensures Valid() && old(log) <= log
      ensures prompt.reading == Yes && old(Standing(Later(now, prompt.world.at))).Some? ==>
        var at := Later(old(now), prompt.world.at);
        var plans := old(Standing(at)).value.plans;
        log == old(log) + [Confirmed(at)] +
          if prompt.world.taken && forall k | 0 <= k < |plans| :: Sound(plans[k], prompt.world)
          then [Accepted(plans, true)] else []
      ensures prompt.reading == Yes && old(Standing(Later(now, prompt.world.at))).None? && prompt.planned == [] ==>
        log == old(log)
      ensures Requests(prompt) ==>
        && now == Later(Later(old(now), prompt.world.at), prompt.world.later)
        && log == old(log) +
             (if Gated(prompt.planned, gate) then [Presented(prompt.planned, now)]
              else [Accepted(prompt.planned, false)])
        && (Gated(prompt.planned, gate) ==> pendingConfirmation == Some(Pending(prompt.planned, now + 90.0)))
    {
      Tick(prompt.world.at);
      ExpirePending();
      if prompt.reading == Control {
        return;
      }
      var answered := HandlePending(prompt.reading, prompt.world);
      if answered {
        return;
      }
      var plans := prompt.planned;
      if prompt.reading.Repeat? {
        plans := RepeatPlans(prompt.reading.override);
      }
      if plans != [] {
        Tick(prompt.world.later);
        FirstGated(plans, prompt.world);
        var wasAccepted := ExecutePlans(plans, false, prompt.world);
      }
    }

    /** What the clock shows next. */
    function Later(now: real, at: real): real {
      if at > now then at else now
    }

    /** A new request whose plans are all sound. */
    predicate Requests(prompt: Prompt) {
      && prompt.reading == Other && prompt.planned != [] && prompt.world.taken
      && forall k | 0 <= k < |prompt.planned| :: Sound(prompt.planned[k], prompt.world)
    }

    lemma FirstGated(plans: seq<Plan>, w: World)
      ensures (forall k | 0 <= k < |plans| :: Sound(plans[k], w)) ==> (Asks(plans, w) <==> Gated(plans, gate))
    {
      if Gated(plans, gate) && forall k | 0 <= k < |plans| :: Sound(plans[k], w) {
        var k :| 0 <= k < |plans| && plans[k].tool in gate;
        while exists j :: 0 <= j < k && plans[j].tool in gate
          invariant 0 <= k < |plans| && plans[k].tool in gate
          decreases k
        {
          var j :| 0 <= j < k && plans[j].tool in gate;
          k := j;
        }
        assert forall j | 0 <= j < k :: Sound(plans[j], w) && plans[j].tool !in gate;
      }
    }

    /** A whole conversation from start-up: every gated acceptance was presented, confirmed in
        time and is the only use of its presentation, repeats included. */
    method Converse(prompts: seq<Prompt>)
      requires Valid() && log == []
      modifies this
      ensures Lawful(log, gate)
      ensures GatedAcceptances(log, gate) <= Presentations(log)
    {
      for n := 0 to |prompts|
        invariant Valid()
      {
        Respond(prompts[n]);
        var waiting: bool := *;      // a task may stop to ask which track was meant
        if waiting {
          pendingClarification := Some(Clarification("", now + 120.0));
        }
      }
      NeverMoreThanPresented(log, gate);
    }
  }

  /** A request for a gated tool and a yes: it is carried out exactly if the yes comes in less than 90
      seconds, and not a word of it otherwise. */
  method AskAndConfirm(service: AgentService, ask: Prompt, yes: Prompt)
    requires service.Valid()
    requires ask.reading == Other && ask.planned != [] && Gated(ask.planned, service.gate)
    requires forall k | 0 <= k < |ask.planned| :: Sound(ask.planned[k], ask.world) && Sound(ask.planned[k], yes.world)
    requires ask.world.taken && yes.world.taken && yes.reading == Yes && yes.planned == []
    requires service.now <= ask.world.at <= ask.world.later <= yes.world.at
    modifies service
    ensures service.log == old(service.log) + [Presented(ask.planned, ask.world.later)] +
      if yes.world.at < ask.world.later + 90.0 then [Confirmed(yes.world.at), Accepted(ask.planned, true)] else []
  {
    service.Respond(ask);
    service.Respond(yes);
  }
}
