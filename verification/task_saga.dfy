/** The program behind the rollback: `_execute`, `_fail_and_compensate`, `_compensate_completed`, `cancel`
    and `close_waiting` in ron/agent/task_manager.py, `execute` and `compensate` in ron/agent/registry.py,
    and the four tools with a compensator. Every helper call can fail, before or after it took effect.
 */
module TaskSaga {
  import opened Common
  import opened TaskRollback

  /** How one step ended; `Asked` is the clarification a tool may ask for. */
  datatype StepOutcome = Succeeded(result: StepResult) | Asked | StepFailed | StepCancelled | StepTimedOut

  /** The laptop, driven through fixed helpers that may fail. */
  class Machine {
    var world: World
    // for now, no helper fails, nothing is late, cancelled or asked back, and nobody else does anything
    var calm: bool

    constructor (initial: World, calm: bool)
      requires Sane(initial)
      ensures world == initial && this.calm == calm
    {
      world, this.calm := initial, calm;
    }

    /** Whether the next thing goes wrong. */
    method Fails() returns (failed: bool)
      ensures calm ==> !failed
    {
      failed := *;
      failed := failed && !calm;
    }

    /** The user and the reminder clock at work on what the task made. */
    method Meanwhile()
      modifies this`world
      ensures Tampered(old(world), world) && (calm ==> world == old(world))
    {
      var documents: map<string, Document> := *;
      var reminders: map<nat, Reminder> := *;
      var next := world.(documents := documents, reminders := reminders);
      if !calm && Tampered(world, next) {
        world := next;
      }
    }

    /** One helper call: reads the part back, or fails before or after the effect. */
    method RunHelper(p: Plan) returns (reading: Option<World>)
      requires Sane(world) && Validated(p)
      modifies this`world
      ensures Sane(world)
      ensures reading.Some? ==> world == Intended(old(world), p) && reading.value == world
      ensures reading.None? ==> !calm && (world == old(world) || world == Intended(old(world), p))
    {
      var failsBefore := Fails();
      var failsAfter := Fails();
      if failsBefore {
        return None;
      }
      world := Intended(world, p);
      return if failsAfter then None else Some(world);
    }

    /** `control_volume`. */
    method ControlVolume(action: VolumeAction) returns (r: Result<StepResult, ()>)
      requires Sane(world) && Validated(VolumeStep(action))
      modifies this`world
      ensures Sane(world)
      ensures r.Ok? ==>
        && world == old(world).(volume := world.volume)
        && world.volume.level == (match action
             case SetVolume(level) => level
             case AdjustVolume(delta) =>
               var sum := old(world).volume.level + delta;
               if sum < 0 then 0 else if sum > 100 then 100 else sum
             case _ => old(world).volume.level)
        && world.volume.muted == (match action
             case Mute => true
             case Unmute => false
             case Toggle => !old(world).volume.muted
             case _ => old(world).volume.muted)
      ensures r.Ok? ==> r.value.VolumeResult? && (r.value.changed <==> action != GetVolume)
      ensures r.Ok? && action != GetVolume ==> r.value.previous == old(world).volume
      ensures r.Ok? ==> Did(VolumeStep(action), r.value, old(world), world)
      ensures r.Err? ==> !calm && (world == old(world) || world == Intended(old(world), VolumeStep(action)))
    {
      var previous := Volume(0, false);      // stands for the absent previous reading of a plain get
      if action != GetVolume {
        var before := RunHelper(VolumeStep(GetVolume));
        if before.None? {
          return Err(());
        }
        previous := before.value.volume;
      }
      var target := action;
      if action.AdjustVolume? {
        target := SetVolume(Clamp(previous.level + action.delta));
      }
      var payload := RunHelper(VolumeStep(target));
      if payload.None? {
        return Err(());
      }
      return Ok(VolumeResult(action != GetVolume, previous));
    }

    /** `control_brightness`. */
    method ControlBrightness(action: BrightnessAction) returns (r: Result<StepResult, ()>)
      requires Sane(world) && Validated(BrightnessStep(action))
      modifies this`world
      ensures Sane(world)
      ensures r.Ok? ==>
        && world == old(world).(brightness := world.brightness)
        && world.brightness == (match action
             case SetBrightness(level) => level
             case AdjustBrightness(delta) =>
               var sum := old(world).brightness + delta;
               if sum < 0 then 0 else if sum > 100 then 100 else sum
             case GetBrightness => old(world).brightness)
      ensures r.Ok? ==> r.value.BrightnessResult? && (r.value.changed <==> action != GetBrightness)
      ensures r.Ok? && action != GetBrightness ==> r.value.previousLevel == old(world).brightness
      ensures r.Ok? ==> Did(BrightnessStep(action), r.value, old(world), world)
      ensures r.Err? ==> !calm && (world == old(world) || world == Intended(old(world), BrightnessStep(action)))
    {
      var previousLevel := 0;
      if action != GetBrightness {
        var before := RunHelper(BrightnessStep(GetBrightness));
        if before.None? {
          return Err(());
        }
        previousLevel := before.value.brightness;
      }
      var target := action;
      if action.AdjustBrightness? {
        target := SetBrightness(Clamp(previousLevel + action.delta));
      }
      var payload := RunHelper(BrightnessStep(target));
      if payload.None? {
        return Err(());
      }
      return Ok(BrightnessResult(action != GetBrightness, previousLevel));
    }

    /** `create_document`: an existing file is never taken over, and a file that cannot be opened is
        removed again if possible. */
    method CreateBlankDocument(path: string) returns (r: Result<StepResult, ()>)
      modifies this`world
      ensures world == old(world).(documents := world.documents)
      ensures forall other | other != path :: IsFile(world, other) <==> IsFile(old(world), other)
      ensures r.Ok? ==> r.value == DocumentResult(path) && !IsFile(old(world), path)
      ensures r.Ok? ==> world.documents == old(world).documents[path := Blank]
      ensures r.Ok? ==> Did(CreateDocument, r.value, old(world), world)
      ensures r.Err? ==> Attempted(CreateDocument, old(world), world)
      ensures calm ==> (r.Ok? <==> !IsFile(old(world), path))
    {
      var unwritable := Fails();
      var doesNotOpen := Fails();
      var stays := Fails();
      if unwritable || IsFile(world, path) {
        return Err(());
      }
      world := world.(documents := world.documents[path := Blank]);
      assert Did(CreateDocument, DocumentResult(path), old(world), world);
      if !doesNotOpen {
        return Ok(DocumentResult(path));
      }
      if world.documents[path] == Blank && !stays {
        world := world.(documents := world.documents[path := Gone]);
        assert world == old(world).(documents := old(world).documents[path := Gone]);
      }
      return Err(());
    }

    /** `set_reminder`: the database never gives a number twice, and may fail after the row is in. */
    method CreateReminder(id: nat) returns (r: Result<StepResult, ()>)
      modifies this`world
      ensures world == old(world) || world == old(world).(reminders := old(world).reminders[id := Pending])
      ensures r.Ok? ==> r.value == ReminderResult(id) && id !in old(world).reminders
      ensures r.Ok? ==> world.reminders == old(world).reminders[id := Pending]
      ensures calm ==> (r.Ok? <==> id !in old(world).reminders)
      ensures r.Ok? ==> Did(SetReminder, r.value, old(world), world)
      ensures r.Err? ==> Attempted(SetReminder, old(world), world)
    {
      var refused := Fails();
      var failsAfter := Fails();
      if refused || id in world.reminders {
        return Err(());
      }
      world := world.(reminders := world.reminders[id := Pending]);
      assert Did(SetReminder, ReminderResult(id), old(world), world);
      return if failsAfter then Err(()) else Ok(ReminderResult(id));
    }

    /** The handler of a step; None when it asks for a clarification, which only a tool without a
        compensator does. */
    method RunHandler(p: Plan) returns (r: Option<Result<StepResult, ()>>)
      requires Sane(world) && Validated(p)
      modifies this`world
      ensures Sane(world)
      ensures r.None? ==> p.Elsewhere? && world == old(world)
      ensures r.Some? && r.value.Ok? ==> Did(p, r.value.value, old(world), world)
      ensures Attempted(p, old(world), world)
      ensures calm && !p.CreateDocument? && !p.SetReminder? ==> r.Some? && r.value.Ok?
    {
      match p {
        case VolumeStep(action) =>
          var done := ControlVolume(action);
          AttemptedEndpoint(p, old(world), world);
          r := Some(done);
        case BrightnessStep(action) =>
          var done := ControlBrightness(action);
          AttemptedEndpoint(p, old(world), world);
          r := Some(done);
        case CreateDocument =>
          var path: string := *;
          var done := CreateBlankDocument(path);
          r := Some(done);
        case SetReminder =>
          var id: nat := *;
          var done := CreateReminder(id);
          r := Some(done);
        case Elsewhere =>
          var fails := Fails();
          var asks := Fails();
          r := if asks then None else Some(if fails then Err(()) else Ok(OtherResult));
      }
    }

    /** `ToolRegistry.execute`: cancellation and the deadline are looked at before and after the
        handler, and an oversized or malformed output fails the step after the fact. */
    method Execute(p: Plan) returns (outcome: StepOutcome)
      requires Sane(world) && Validated(p)
      modifies this`world
      ensures Sane(world) && Attempted(p, old(world), world)
      ensures outcome.Succeeded? ==> Did(p, outcome.result, old(world), world)
      ensures outcome.Asked? ==> p.Elsewhere? && world == old(world)
      ensures calm && !p.CreateDocument? && !p.SetReminder? ==> outcome.Succeeded?
    {
      var stop := Checkpoint();
      if stop.Some? {
        return stop.value;
      }
      var r := RunHandler(p);
      stop := Checkpoint();
      if stop.Some? {
        return stop.value;
      }
      var outputRejected := Fails();
      if outputRejected {
        return StepFailed;
      }
      return if r.None? then Asked else if r.value.Err? then StepFailed else Succeeded(r.value.value);
    }

    method Checkpoint() returns (stop: Option<StepOutcome>)
      ensures stop.Some? ==> !calm && stop.value in {StepCancelled, StepTimedOut}
    {
      var cancelled := Fails();
      var late := Fails();
      return if cancelled then Some(StepCancelled) else if late then Some(StepTimedOut) else None;
    }

    /** `remove_empty_document`. */
    method RemoveEmptyDocument(path: string) returns (ok: bool, ghost how: Compensation)
      modifies this`world
      ensures world == Compensate(DocumentResult(path), how, old(world))
      ensures Reported(DocumentResult(path), how, Some(ok), old(world))
      ensures ok ==> At(DocumentPart(path), old(world)) == DocumentIs(Blank)
      ensures world == if ok then old(world).(documents := old(world).documents[path := Gone]) else old(world)
      ensures calm ==> (ok <==> IsFile(old(world), path) && old(world).documents[path] == Blank)
    {
      var stays := Fails();
      if !IsFile(world, path) || world.documents[path] != Blank || stays {
        return false, Untouched;
      }
      world := world.(documents := world.documents[path := Gone]);
      return true, Restored;
    }

    /** `cancel_created_reminder` with `ReminderManager.cancel`: a pending reminder is called off, one
        that is already called off will do, and the database may fail before or after. */
    method CancelCreatedReminder(id: nat) returns (ok: bool, ghost how: Compensation)
      modifies this`world
      ensures world == Compensate(ReminderResult(id), how, old(world))
      ensures Reported(ReminderResult(id), how, Some(ok), old(world))
      ensures ok ==> world == old(world).(reminders := old(world).reminders[id := CalledOff])
      ensures calm ==> (ok <==> id in old(world).reminders && old(world).reminders[id] != Fired)
    {
      var failsBefore := Fails();
      var failsAfter := Fails();
      if failsBefore || id !in world.reminders {
        return false, Untouched;
      }
      if world.reminders[id] == Pending {
        world := world.(reminders := world.reminders[id := CalledOff]);
        return !failsAfter, Restored;
      }
      assert world.reminders[id] == CalledOff ==> world.reminders[id := CalledOff] == world.reminders;
      return !failsAfter && world.reminders[id] == CalledOff,
        if world.reminders[id] == CalledOff then Restored else Untouched;
    }

    /** `restore_volume`. */
    method RestoreVolume(previous: Volume) returns (ok: bool, ghost how: Compensation)
      requires Sane(world) && 0 <= previous.level <= 100
      modifies this`world
      ensures Sane(world) && world == Compensate(VolumeResult(true, previous), how, old(world))
      ensures (ok ==> how == Restored && world == old(world).(volume := previous)) && (calm ==> ok)
    {
      var level := RunHelper(VolumeStep(SetVolume(previous.level)));
      if level.None? {
        return false, if world == old(world) then Untouched else LevelOnly;
      }
      var mute := RunHelper(VolumeStep(if previous.muted then Mute else Unmute));
      return mute.Some?, if world.volume == previous then Restored else LevelOnly;
    }

    /** `restore_brightness`. */
    method RestoreBrightness(previousLevel: int) returns (ok: bool, ghost how: Compensation)
      requires Sane(world) && 0 <= previousLevel <= 100
      modifies this`world
      ensures Sane(world) && world == Compensate(BrightnessResult(true, previousLevel), how, old(world))
      ensures (ok ==> how == Restored && world == old(world).(brightness := previousLevel)) && (calm ==> ok)
    {
      var level := RunHelper(BrightnessStep(SetBrightness(previousLevel)));
      return level.Some?, if level.Some? || world != old(world) then Restored else Untouched;
    }

    /** `ToolRegistry.compensate`: None when there is nothing to compensate, otherwise whether the
        compensator reported success. */
    method RunCompensator(r: StepResult) returns (report: Option<bool>, ghost how: Compensation)
      requires Sane(world)
      requires r.VolumeResult? && r.changed ==> 0 <= r.previous.level <= 100
      requires r.BrightnessResult? && r.changed ==> 0 <= r.previousLevel <= 100
      modifies this`world
      ensures Sane(world) && world == Compensate(r, how, old(world)) && Reported(r, how, report, old(world))
      ensures calm && !r.DocumentResult? && !r.ReminderResult? ==> report != Some(false)
    {
      var ok: bool;
      match r
      case VolumeResult(true, previous) =>
        ok, how := RestoreVolume(previous);
        return Some(ok), how;
      case BrightnessResult(true, previousLevel) =>
        ok, how := RestoreBrightness(previousLevel);
        return Some(ok), how;
      case DocumentResult(path) =>
        ok, how := RemoveEmptyDocument(path);
        return Some(ok), how;
      case ReminderResult(id) =>
        ok, how := CancelCreatedReminder(id);
        return Some(ok), how;
      case _ =>
        return None, Restored;
    }
  }

  lemma AttemptedEndpoint(p: Plan, w: World, v: World)
    requires (p.VolumeStep? || p.BrightnessStep?) && (v == w || v == Intended(w, p))
    ensures Attempted(p, w, v)
  {
    var r := if p.VolumeStep? then VolumeResult(p.volumeAction != GetVolume, w.volume)
             else BrightnessResult(p.brightnessAction != GetBrightness, w.brightness);
    assert Did(p, r, w, Intended(w, p));
  }

  class TaskRecord {
    const steps: seq<Plan>
    var status: TaskStatus
    var completedResults: seq<StepResult>
    var rollbackFailures: nat

    constructor (steps: seq<Plan>)
      ensures this.steps == steps && status == Running && completedResults == [] && rollbackFailures == 0
    {
      this.steps := steps;
      status, completedResults, rollbackFailures := Running, [], 0;
    }

    /** The record shows the run `e` of its steps from `start`. */
    ghost predicate Shows(m: Machine, start: World, e: Ending)
      reads this, m
    {
      && IsRun(steps, start, e) && status == e.status && completedResults == e.results && m.world == e.world
      && (rollbackFailures == 0 <==> Some(false) !in e.reports)
    }

    /** No step makes anything new, which can fail for the name drawn. */
    predicate Simple() {
      forall k | 0 <= k < |steps| :: !steps[k].CreateDocument? && !steps[k].SetReminder?
    }

    /** Run the steps in order; on any failure or interruption compensate what was completed; on a
        clarification wait, and compensate nothing. */
    method Execute(m: Machine) returns (ghost e: Ending)
      requires status == Running && completedResults == [] && rollbackFailures == 0
      requires Sane(m.world) && Fresh(m.world) && forall k | 0 <= k < |steps| :: Validated(steps[k])
      modifies this, m`world
      ensures Shows(m, old(m.world), e) && e.status != Resolved
      ensures status == Completed ==> SameEndpoints(m.world, Carry(old(m.world), steps))
      ensures e.waited <==> status == Waiting
      ensures m.calm && Simple() ==> status == Completed
    {
      ghost var start := m.world;
      ghost var worlds := [m.world];
      var index := 0;
      while index < |steps|
        invariant 0 <= index <= |steps| && |completedResults| == index && rollbackFailures == 0
        invariant Remembered(worlds) && worlds[0] == start && worlds[index] == m.world
      {
        var cancelRequested := m.Fails();
        if cancelRequested {
          e := RollBack(m, Cancelled, start, worlds);
          return;
        }
        var outcome := m.Execute(steps[index]);
        ghost var mid := m.world;
        m.Meanwhile();
        match outcome {
          case Succeeded(result) =>
            OneMorePassed(worlds, result, mid, m.world);
            completedResults, worlds := completedResults + [result], worlds + [m.world];
            index := index + 1;
          case Asked =>
            status := Waiting;
            e := Ending(Waiting, true, completedResults, worlds, worlds[index], [], [], m.world);
            return;
          case _ =>
            assert Stopped(steps[index], worlds[index], m.world);
            var ended := match outcome
              case StepCancelled => Cancelled
              case StepTimedOut => TimedOut
              case _ => Failed;
            e := RollBack(m, ended, start, worlds);
            return;
        }
      }
      status := Completed;
      Carried(steps, completedResults, worlds);
      assert steps[..|steps|] == steps;
      e := Ending(Completed, false, completedResults, worlds, m.world, [], [], m.world);
    }

    /** The states the completed steps began in, all of them sane. */
    ghost predicate Remembered(worlds: seq<World>)
      reads this
    {
      History(steps, completedResults, worlds) && forall k | 0 <= k < |worlds| :: Sane(worlds[k])
    }

    lemma OneMorePassed(worlds: seq<World>, result: StepResult, mid: World, next: World)
      requires Remembered(worlds) && |completedResults| < |steps| && Sane(next)
      requires Did(steps[|completedResults|], result, worlds[|completedResults|], mid) && Tampered(mid, next)
      ensures History(steps, completedResults + [result], worlds + [next])
      ensures forall k | 0 <= k < |worlds + [next]| :: Sane((worlds + [next])[k])
    {
      hide Did, Tampered;
      assert Passed(steps[|completedResults|], result, worlds[|completedResults|], next);
    }

    /** `_interrupt_and_compensate` and `_fail_and_compensate`. */
    method RollBack(m: Machine, ended: TaskStatus, ghost start: World, ghost worlds: seq<World>)
      returns (ghost e: Ending)
      requires Sane(m.world) && Remembered(worlds) && worlds[0] == start && Fresh(start) && rollbackFailures == 0
      requires |completedResults| < |steps| && ended in {Failed, Cancelled, TimedOut}
      requires (ended == Cancelled && m.world == worlds[|completedResults|])
        || Stopped(steps[|completedResults|], worlds[|completedResults|], m.world)
      modifies m`world, this`rollbackFailures, this`status
      ensures Shows(m, start, e) && !e.waited && status == ended && e.worlds == worlds
    {
      ghost var stopped := m.world;
      ghost var how, reports := CompensateCompleted(m, worlds);
      status := ended;
      e := Ending(ended, false, completedResults, worlds, stopped, how, reports, m.world);
    }

    /** Compensate the completed results, last to first. */
    method CompensateCompleted(m: Machine, ghost worlds: seq<World>)
      returns (ghost how: seq<Compensation>, ghost reports: seq<Option<bool>>)
      requires Sane(m.world) && Remembered(worlds) && rollbackFailures == 0
      modifies m`world, this`rollbackFailures
      ensures |how| == |completedResults| == |reports|
      ensures m.world == Rollback(completedResults, how, old(m.world))
      ensures AllReported(completedResults, how, reports, old(m.world))
      ensures rollbackFailures == 0 <==> Some(false) !in reports
    {
      hide Rollback, AllReported, Compensate, Reported, Passed;
      ghost var start := m.world;
      how, reports := [], [];
      var k := |completedResults|;
      NothingRolledBack(completedResults, start);
      while k > 0
        invariant 0 <= k <= |completedResults| && |how| == |reports| == |completedResults| - k && Sane(m.world)
        invariant RolledBackTo(completedResults, k, how, reports, start, m.world)
        invariant rollbackFailures == 0 <==> Some(false) !in reports
      {
        k := k - 1;
        ghost var before := m.world;
        SanePrevious(worlds, k);
        var report, one := m.RunCompensator(completedResults[k]);
        if report == Some(false) {
          rollbackFailures := rollbackFailures + 1;
        }
        OneMoreRolledBack(completedResults, k + 1, how, reports, start, before, one, report);
        how, reports := [one] + how, [report] + reports;
      }
      AllRolledBack(completedResults, how, reports, start, m.world);
    }

    lemma SanePrevious(worlds: seq<World>, k: nat)
      requires Remembered(worlds) && k < |completedResults|
      ensures var r := completedResults[k];
        && (r.VolumeResult? && r.changed ==> 0 <= r.previous.level <= 100)
        && (r.BrightnessResult? && r.changed ==> 0 <= r.previousLevel <= 100)
    {
      assert Passed(steps[k], completedResults[k], worlds[k], worlds[k + 1]);
      assert Sane(worlds[k]);
    }

    /** `cancel` and `close_waiting` on a task that is not running: only a waiting one changes, and
        nothing is compensated. */
    method Close(m: Machine, ended: TaskStatus, ghost start: World, ghost e: Ending) returns (ghost e': Ending)
      requires Shows(m, start, e) && ended in {Cancelled, Resolved}
      modifies this`status
      ensures Shows(m, start, e') && m.world == old(m.world)
      ensures e' == if old(status) == Waiting then e.(status := ended) else e
    {
      e' := e;
      if status == Waiting {
        status := ended;
        e' := e.(status := ended);
      }
    }

    /** A task from its first step to its end, whoever closes it if it has to wait. */
    method Live(m: Machine) returns (ghost e: Ending)
      requires status == Running && completedResults == [] && rollbackFailures == 0
      requires Sane(m.world) && Fresh(m.world) && forall k | 0 <= k < |steps| :: Validated(steps[k])
      modifies this, m`world
      ensures Shows(m, old(m.world), e) && status in {Completed, Failed, Cancelled, TimedOut, Resolved}
      ensures status == Completed ==> SameEndpoints(m.world, Carry(old(m.world), steps))
      ensures m.calm && Simple() ==> status == Completed
      ensures status == Completed && SetsNoVolume(steps) && InRange(old(m.world).volume.level, VolumeDeltas(steps)) ==>
        m.world.volume.level == old(m.world).volume.level + Sum(VolumeDeltas(steps))
      ensures
        status == Completed && SetsNoBrightness(steps) && InRange(old(m.world).brightness, BrightnessDeltas(steps)) ==>
        m.world.brightness == old(m.world).brightness + Sum(BrightnessDeltas(steps))
      ensures status != Completed && rollbackFailures == 0 && !e.waited ==>
        (Alike(m.world, old(m.world)) <==>
           forall p :: Touched(completedResults, p) || Same(p, e.stopped, e.worlds[|completedResults|]))
      ensures e.waited ==>
        (Alike(m.world, old(m.world)) <==>
           && SameEndpoints(Carry(old(m.world), steps[..|completedResults|]), old(m.world))
           && forall r | r in completedResults :: TakenAway(r, m.world))
    {
      ghost var start := m.world;
      e := Execute(m);
      if status == Waiting {
        ghost var asked := m.world;
        m.Meanwhile();
        TamperedTwice(e.stopped, asked, m.world);
        e := e.(world := m.world);
        var resolved: bool := *;
        e := Close(m, if resolved then Resolved else Cancelled, start, e);
      }
      if status != Completed && rollbackFailures == 0 {
        WorldIsBackExactly(steps, start, e);
      }
      if SetsNoVolume(steps) && InRange(start.volume.level, VolumeDeltas(steps)) {
        VolumeAddsUp(start, steps);
      }
      if SetsNoBrightness(steps) && InRange(start.brightness, BrightnessDeltas(steps)) {
        BrightnessAddsUp(start, steps);
      }
    }
  }

  // ---- the reverse loop

  /** Results k and later are compensated in the way `how`: what is left of the rollback starts from here. */
  ghost predicate RolledBackTo(results: seq<StepResult>, k: nat, how: seq<Compensation>, reports: seq<Option<bool>>,
      start: World, here: World)
    requires k <= |results| && |how| == |reports| == |results| - k
  {
    forall front: seq<Compensation>, said: seq<Option<bool>> | |front| == k == |said| ::
      && Rollback(results, front + how, start) == Rollback(results[..k], front, here)
      && (AllReported(results[..k], front, said, here) ==> AllReported(results, front + how, said + reports, start))
  }

  lemma NothingRolledBack(results: seq<StepResult>, start: World)
    ensures RolledBackTo(results, |results|, [], [], start, start)
  {
    assert results[..|results|] == results;
    assert forall front: seq<Compensation> :: front + [] == front;
    assert forall said: seq<Option<bool>> :: said + [] == said;
  }

  lemma OneMoreRolledBack(results: seq<StepResult>, k: nat, how: seq<Compensation>, reports: seq<Option<bool>>,
      start: World, here: World, one: Compensation, report: Option<bool>)
    requires 0 < k <= |results| && |how| == |reports| == |results| - k
    requires RolledBackTo(results, k, how, reports, start, here) && Reported(results[k - 1], one, report, here)
    ensures RolledBackTo(results, k - 1, [one] + how, [report] + reports, start, Compensate(results[k - 1], one, here))
  {
    hide Compensate, Reported, Rollback, AllReported;
    var next := Compensate(results[k - 1], one, here);
    forall front: seq<Compensation>, said: seq<Option<bool>> | |front| == k - 1 == |said|
      ensures Rollback(results, front + ([one] + how), start) == Rollback(results[..k - 1], front, next)
      ensures AllReported(results[..k - 1], front, said, next)
        ==> AllReported(results, front + ([one] + how), said + ([report] + reports), start)
    {
      assert front + ([one] + how) == (front + [one]) + how;
      assert said + ([report] + reports) == (said + [report]) + reports;
      assert results[..k][..k - 1] == results[..k - 1];
      LastFirst(results[..k], front, said, here, one, report);
    }
  }

  lemma LastFirst(results: seq<StepResult>, front: seq<Compensation>, said: seq<Option<bool>>, here: World,
      one: Compensation, report: Option<bool>)
    requires results != [] && |front| == |said| == |results| - 1 && Reported(results[|front|], one, report, here)
    ensures var next := Compensate(results[|front|], one, here);
      && Rollback(results, front + [one], here) == Rollback(results[..|front|], front, next)
      && (AllReported(results[..|front|], front, said, next) ==>
        AllReported(results, front + [one], said + [report], here))
  {
    hide Compensate, Reported;
    assert (front + [one])[..|front|] == front && (said + [report])[..|front|] == said;
  }

  lemma AllRolledBack(results: seq<StepResult>, how: seq<Compensation>, reports: seq<Option<bool>>,
      start: World, here: World)
    requires |how| == |results| == |reports| && RolledBackTo(results, 0, how, reports, start, here)
    ensures Rollback(results, how, start) == here && AllReported(results, how, reports, start)
  {
    assert [] + how == how && [] + reports == reports;
    assert Rollback(results[..0], [], here) == here && AllReported(results[..0], [], [], here);
  }
}
